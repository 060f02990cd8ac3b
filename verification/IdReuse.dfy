/** A legal run in which a transaction id comes round while its first owner is
    still waiting: 254 requests are answered while the first is not, and the next
    request takes the first one's id. */
module IdReuse {
  import opened Basics
  import opened PoolModel
  import opened Transactions
  import opened PacketOwnership
  import opened TransactionLifecycle

  predicate EnabledAll(s: State, events: seq<Event>)
    requires Consistent(s.pool)
    decreases events
  {
    events == [] || (Enabled(s, events[0]) && EnabledAll(Step(s, events[0]), events[1..]))
  }

  function StepAll(s: State, events: seq<Event>): (t: State)
    requires Consistent(s.pool) && EnabledAll(s, events)
    ensures Consistent(t.pool)
    decreases events
  {
    if events == [] then s else StepAll(Step(s, events[0]), events[1..])
  }

  lemma {:induction false} LegalAppend(capacity: nat, events: seq<Event>, more: seq<Event>)
    requires Legal(capacity, events) && EnabledAll(Run(capacity, events), more)
    ensures Legal(capacity, events + more) && Run(capacity, events + more) == StepAll(Run(capacity, events), more)
    decreases more
  {
    hide Step, Enabled, Consistent;
    if more == [] {
      assert events + more == events;
    } else {
      LegalNext(capacity, events, more[0]);
      LegalAppend(capacity, events + [more[0]], more[1..]);
      assert events + more == (events + [more[0]]) + more[1..];
    }
  }

  lemma OneMore(s: State, e: Event, more: seq<Event>)
    requires Consistent(s.pool) && Enabled(s, e) && EnabledAll(Step(s, e), more)
    ensures EnabledAll(s, [e] + more) && StepAll(s, [e] + more) == StepAll(Step(s, e), more)
  {
    assert ([e] + more)[1..] == more;
  }

  /** Nothing queued, nothing being written, and two packets free. */
  ghost predicate Quiet(s: State)
  {
    && Consistent(s.pool) && |s.pool.free| >= 2 && s.enabled
    && s.queue == [] && s.callbacks == multiset{} && s.lost == multiset{}
    && s.socket.closures == [] && s.socket.pending == [] && !s.socket.isSending
  }

  /** A request goes out and is written. */
  function Asked(s: State): State
    requires |s.pool.free| >= 2 && s.pool.free[0] < |s.pool.count|
  {
    var x := s.pool.free[0];
    State(Pool(s.pool.free[1..], s.pool.count[x := 1]), s.enabled, (s.cseq + 1) % MAX_ID, s.table[s.cseq := |s.txs|],
          s.txs + [Tx(s.cseq, x, Waiting, 0, Armed(INITIAL_RTO), true, 1, 0)], [], multiset{},
          Socket([], [], false, s.socket.handed + [x], s.socket.written + [x]), multiset{})
  }

  const ASKING: seq<Event> := [StartRequest] + ([RunClosure] + ([RunPush] + ([WriteReady] + [])))

  lemma AskingSteps(s: State)
    requires Quiet(s)
    ensures Enabled(s, StartRequest)
    ensures var a := Step(s, StartRequest);
            Enabled(a, RunClosure) && (
              var b := Step(a, RunClosure);
              Enabled(b, RunPush) && (
                var c := Step(b, RunPush);
                Enabled(c, WriteReady) && Step(c, WriteReady) == Asked(s)))
  {
    var x, t := s.pool.free[0], Asked(s);
    var a := Step(s, StartRequest);
    assert a.pool.count[x] == 2 && a.queue == [Insert(|s.txs|)] && a.socket.closures == [x];
    var b := Step(a, RunClosure);
    assert b.table == t.table && b.txs == t.txs && b.queue == [];
    var c := Step(b, RunPush);
    assert c.socket.pending == [x] && c.socket.closures == [];
    var d := WriteOne(c);
    assert d.socket.pending == [] && d.pool.count == t.pool.count && d.pool.free == t.pool.free;
    assert Drain(c) == d;
  }

  lemma AskingEffect(s: State)
    requires Quiet(s)
    ensures EnabledAll(s, ASKING) && StepAll(s, ASKING) == Asked(s)
  {
    hide Step, Enabled, Asked;
    AskingSteps(s);
    var a := Step(s, StartRequest);
    var b := Step(a, RunClosure);
    var c := Step(b, RunPush);
    OneMore(c, WriteReady, []);
    OneMore(b, RunPush, [WriteReady] + []);
    OneMore(a, RunClosure, [RunPush] + ([WriteReady] + []));
    OneMore(s, StartRequest, [RunClosure] + ([RunPush] + ([WriteReady] + [])));
  }

  /** The request is answered: its packet and the answer's are free again. */
  function Answered(s: State): State
    requires |s.pool.free| >= 2 && s.pool.free[0] < |s.pool.count|
  {
    var x, y, a := s.pool.free[0], s.pool.free[1], Asked(s);
    a.(pool := Pool([y, x] + s.pool.free[2..], s.pool.count),
       table := a.table - {s.cseq},
       txs := s.txs + [Tx(s.cseq, x, Acknowledged, 0, Disarmed, false, 1, 0)])
  }

  function Answering(y: nat, id: nat): seq<Event>
  {
    [Arrival(Good)] + ([Callback(y, IsResponse(id, true))] + ([RunClosure] + []))
  }

  lemma AnswerArrives(s: State)
    requires Quiet(s) && Consistent(Asked(s).pool)
    ensures var y, a := s.pool.free[1], Asked(s);
            var b := Step(a, Arrival(Good));
            a.queue == [] && Enabled(b, Callback(y, IsResponse(s.cseq, true))) && (
              var c := Step(b, Callback(y, IsResponse(s.cseq, true)));
              c == a.(pool := Pool(s.pool.free[2..], a.pool.count[y := 1]), queue := [Response(y, s.cseq, true)]))
  {
    var y, a := s.pool.free[1], Asked(s);
    var b := Step(a, Arrival(Good));
    assert b.pool.free == s.pool.free[2..] && b.pool.count[y] == 1 && b.callbacks == multiset{y};
    var c := Step(b, Callback(y, IsResponse(s.cseq, true)));
    assert c.pool.count == b.pool.count && c.callbacks == multiset{};
  }

  lemma AnswerTaken(s: State)
    requires Quiet(s) && Consistent(Asked(s).pool)
    requires Consistent(Pool(s.pool.free[2..], Asked(s).pool.count[s.pool.free[1] := 1]))
    ensures var y, a := s.pool.free[1], Asked(s);
            OnResponse(a.(pool := Pool(s.pool.free[2..], a.pool.count[y := 1])), y, s.cseq, true) == Answered(s)
  {
    var x, y, a := s.pool.free[0], s.pool.free[1], Asked(s);
    var q := a.(pool := Pool(s.pool.free[2..], a.pool.count[y := 1]));
    var r := Retire(q, |s.txs|, Acknowledged, false);
    assert r.pool.free == [x] + s.pool.free[2..] && r.pool.count[y] == 1;
    assert ReleasePacket(r.pool, y).free == [y, x] + s.pool.free[2..];
    assert ReleasePacket(r.pool, y).count == s.pool.count;
    assert r.txs == s.txs + [Tx(s.cseq, x, Acknowledged, 0, Disarmed, false, 1, 0)];
  }

  lemma AnsweringSteps(s: State)
    requires Quiet(s) && Consistent(Asked(s).pool)
    ensures var y, a := s.pool.free[1], Asked(s);
            Enabled(a, Arrival(Good)) && (
              var b := Step(a, Arrival(Good));
              Enabled(b, Callback(y, IsResponse(s.cseq, true))) && (
                var c := Step(b, Callback(y, IsResponse(s.cseq, true)));
                Enabled(c, RunClosure) && Step(c, RunClosure) == Answered(s)))
  {
    hide Asked, Answered, OnResponse, Retire;
    AnswerArrives(s);
    AnswerTaken(s);
    var y, a := s.pool.free[1], Asked(s);
    var c := Step(Step(a, Arrival(Good)), Callback(y, IsResponse(s.cseq, true)));
    assert c.(queue := c.queue[1..]) == a.(pool := c.pool);
  }

  lemma AnsweringEffect(s: State)
    requires Quiet(s) && Consistent(Asked(s).pool)
    ensures var events := Answering(s.pool.free[1], s.cseq);
            EnabledAll(Asked(s), events) && StepAll(Asked(s), events) == Answered(s)
  {
    hide Step, Enabled, Asked, Answered;
    AnsweringSteps(s);
    var y, a := s.pool.free[1], Asked(s);
    var b := Step(a, Arrival(Good));
    var c := Step(b, Callback(y, IsResponse(s.cseq, true)));
    OneMore(c, RunClosure, []);
    OneMore(b, Callback(y, IsResponse(s.cseq, true)), [RunClosure] + []);
    OneMore(a, Arrival(Good), [Callback(y, IsResponse(s.cseq, true))] + ([RunClosure] + []));
  }

  /** Transaction 0 waits, and k more have been answered since. */
  ghost predicate Waited(s: State, k: nat)
  {
    && Quiet(s) && s.table == map[0 := 0] && s.cseq == (k + 1) % MAX_ID && |s.txs| == k + 1
    && s.txs[0] == Tx(0, s.txs[0].packet, Waiting, 0, Armed(INITIAL_RTO), true, 1, 0)
  }

  lemma FirstWaits(capacity: nat)
    requires capacity >= 3
    ensures Quiet(Initial(capacity))
    ensures Consistent(Asked(Initial(capacity)).pool) ==> Waited(Asked(Initial(capacity)), 0)
  {
  }

  lemma StillWaits(s: State, k: nat)
    requires Waited(s, k) && k + 1 < MAX_ID && Consistent(Answered(s).pool)
    ensures Waited(Answered(s), k + 1)
  {
    assert (map[0 := 0])[s.cseq := |s.txs|] - {s.cseq} == map[0 := 0];
  }

  lemma {:induction false} Rounds(capacity: nat, k: nat) returns (events: seq<Event>)
    requires capacity >= 3 && k < MAX_ID
    ensures Legal(capacity, events) && Waited(Run(capacity, events), k)
  {
    hide Step, Enabled, Asked, Answered, Initial, StepAll, EnabledAll, Consistent;
    if k == 0 {
      FirstWaits(capacity);
      AskingEffect(Initial(capacity));
      LegalAppend(capacity, [], ASKING);
      events := [] + ASKING;
    } else {
      var before := Rounds(capacity, k - 1);
      var s := Run(capacity, before);
      AskingEffect(s);
      LegalAppend(capacity, before, ASKING);
      AnsweringEffect(s);
      LegalAppend(capacity, before + ASKING, Answering(s.pool.free[1], s.cseq));
      events := before + ASKING + Answering(s.pool.free[1], s.cseq);
      StillWaits(s, k - 1);
    }
  }

  // ----- what the wrapped id does

  /** Live, but neither waiting for insertion nor in the table, and no timer runs for it. */
  ghost predicate Stranded(s: State, h: nat)
  {
    && h < |s.txs| && s.txs[h].live && s.txs[h].timer.Disarmed?
    && CountTimeouts(s.queue, h) == 0 && Insert(h) !in s.queue
    && forall id :: id in s.table ==> s.table[id] != h
  }

  const EXPIRING: seq<Event> := [FireTimer(0)] + ([RunClosure] + [])

  /** When the first transaction's timer fires, the retry goes to the transaction that took its id. */
  lemma ExpiringSteps(s: State)
    requires Waited(s, MAX_ID - 1) && Consistent(Asked(s).pool)
    ensures var a := Asked(s);
            Enabled(a, FireTimer(0)) && (
              var b := Step(a, FireTimer(0));
              Enabled(b, RunClosure) && (
                var c := Step(b, RunClosure);
                && Stranded(c, 0) && c.txs[0].errors == 0 && c.txs[0].sends == 1
                && c.table == map[0 := MAX_ID] && |c.txs| == MAX_ID + 1 && c.txs[MAX_ID].sends == 2))
  {
    var a := Asked(s);
    assert a.table == map[0 := MAX_ID];
    var b := Step(a, FireTimer(0));
    assert b.queue == [Timeout(0, 0)] && b.queue[1..] == [];
    var c := Step(b, RunClosure);
    assert c.queue == [] && c.table == b.table;
  }

  /** A legal run, for any pool of at least three packets, after which TimedOnce
      and Reachable fail of transaction 0: it is live, with no timer and no queued
      timeout, and the retry it was due has gone to transaction 255. */
  lemma IdReuseStrands(capacity: nat) returns (events: seq<Event>)
    requires capacity >= 3
    ensures Legal(capacity, events)
    ensures var s := Run(capacity, events);
            && Stranded(s, 0) && s.txs[0].sends == 1 && s.txs[0].errors == 0
            && |s.txs| == MAX_ID + 1 && s.txs[MAX_ID].sends == 2
    ensures !TimedOnce(Run(capacity, events)) && !Reachable(Run(capacity, events))
  {
    hide Step, Enabled, Asked;
    var before := Rounds(capacity, MAX_ID - 1);
    var s := Run(capacity, before);
    AskingEffect(s);
    LegalAppend(capacity, before, ASKING);
    ExpiringSteps(s);
    OneMore(Step(Asked(s), FireTimer(0)), RunClosure, []);
    OneMore(Asked(s), FireTimer(0), [RunClosure] + []);
    LegalAppend(capacity, before + ASKING, EXPIRING);
    events := before + ASKING + EXPIRING;
  }

  lemma ExecuteStranded(s: State, c: Closure, h: nat)
    requires Consistent(s.pool) && TableLive(s) && Stranded(s, h)
    requires c.Insert? ==> c.tx != h && c.tx < |s.txs|
    ensures Stranded(Execute(s, c), h) && Execute(s, c).txs[h] == s.txs[h]
  {
    match c
    case Disable =>
      if s.enabled {
        var q := s.(enabled := false);
        TableFrame(s, q);
        RemoveKeysSpares(q, Upto(MAX_ID + 1), h);
        RemoveKeysEmpties(q, Upto(MAX_ID + 1));
        RemoveKeysFrame(q, Upto(MAX_ID + 1));
      }
    case _ =>
  }

  lemma PopStranded(s: State, h: nat)
    requires Registered(s) && Stranded(s, h) && s.queue != []
    ensures Stranded(s.(queue := s.queue[1..]), h)
    ensures s.queue[0].Insert? ==> s.queue[0].tx != h && s.queue[0].tx < |s.txs|
  {
    CountHead(s.queue, h);
    assert s.queue[0] in s.queue;
    assert forall i :: 0 <= i < |s.queue| - 1 ==> s.queue[1..][i] == s.queue[i + 1];
  }

  lemma PostStranded(s: State, c: Closure, h: nat)
    requires Stranded(s, h) && c != Insert(h) && !(c.Timeout? && c.tx == h)
    ensures Stranded(Post(s, c), h)
  {
    CountPost(s.queue, c, h);
  }

  lemma StepStranded(s: State, e: Event, h: nat)
    requires Consistent(s.pool) && Registered(s) && Stranded(s, h) && Enabled(s, e)
    ensures Stranded(Step(s, e), h) && Step(s, e).txs[h] == s.txs[h]
  {
    match e
    case StartRequest => PostStranded(s, Insert(|s.txs|), h);
    case RunClosure =>
      var q := s.(queue := s.queue[1..]);
      PopStranded(s, h);
      TableFrame(s, q);
      ExecuteStranded(q, s.queue[0], h);
    case FireTimer(k) => PostStranded(s, Timeout(s.txs[k].id, k), h);
    case Callback(packet, content) =>
      if !content.Invalid? {
        PostStranded(s, ReceivedClosure(packet, content), h);
      }
    case PostEnable => PostStranded(s, Enable, h);
    case PostDisable => PostStranded(s, Disable, h);
    case WriteReady => DrainFrame(s);
    case _ =>
  }

  /** A stranded transaction never changes again: it is never answered, retried,
      reported or freed, and keeps its packet for good. */
  lemma {:induction false} StrandedForever(capacity: nat, events: seq<Event>, n: nat, h: nat)
    requires Legal(capacity, events) && n <= |events| && Legal(capacity, events[..n])
    requires Stranded(Run(capacity, events[..n]), h)
    ensures Stranded(Run(capacity, events), h)
    ensures Run(capacity, events).txs[h] == Run(capacity, events[..n]).txs[h]
    ensures Run(capacity, events).txs[h].packet !in Run(capacity, events).pool.free
  {
    if n == |events| {
      assert events[..n] == events;
    } else {
      assert Front(events)[..n] == events[..n];
      StrandedForever(capacity, Front(events), n, h);
      OwnedAlways(capacity, Front(events));
      StepStranded(Run(capacity, Front(events)), Last(events), h);
    }
    CountIsHolders(capacity, events);
    LiveTxHolds(Run(capacity, events).txs, h);
  }
}
