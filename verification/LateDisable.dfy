/** Which transactions a disable misses, and what becomes of one it misses. */
module LateDisable {
  import opened Basics
  import opened PoolModel
  import opened Transactions
  import opened PacketOwnership
  import opened TransactionLifecycle

  /** In every run a disable misses a live transaction if and only if the table does
      not hold it; where no id has been reused, so that each live transaction is in
      the table or about to be, if and only if its insertion is still queued. */
  lemma DisableMissesIff(capacity: nat, events: seq<Event>, h: nat)
    requires Legal(capacity, events)
    requires var s := Run(capacity, events);
             s.enabled && s.queue != [] && s.queue[0] == Disable && h < |s.txs| && s.txs[h].live
    ensures var s := Run(capacity, events);
            var t := Step(s, RunClosure);
            && |t.txs| == |s.txs|
            && (t.txs[h].live <==> forall id :: id in s.table ==> s.table[id] != h)
            && (Reachable(s) ==> (t.txs[h].live <==> Insert(h) in s.queue))
  {
    var s := Run(capacity, events);
    OwnedAlways(capacity, events);
    AttemptsAndErrors(capacity, events);
    InRangeAlways(capacity, events);
    hide Run, Legal, Lived;
    PoppedRegistered(s);
    DisableEmptiesTable(s.(queue := s.queue[1..]));
    if forall id :: id in s.table ==> s.table[id] != h {
      var q := s.(queue := s.queue[1..], enabled := false);
      TableFrame(s, q);
      RemoveKeysSpares(q, Upto(MAX_ID + 1), h);
    }
  }

  // ----- a run in which an error follows the disable

  /** Disabled, with one transaction in the table on its k-th retry. */
  ghost predicate Late(s: State, k: nat)
  {
    && Consistent(s.pool) && !s.enabled && s.queue == [] && s.table == map[0 := 0] && |s.txs| == 1
    && s.txs[0] == Tx(0, s.txs[0].packet, Waiting, k, Armed(Deadline(k)), true, 1 + k, 0)
  }

  ghost predicate FailedLate(s: State)
  {
    && !s.enabled && |s.txs| == 1
    && s.txs[0].state == TimedOut && s.txs[0].errors == 1 && s.txs[0].sends == 3
  }

  lemma ExpireOnce(s: State, k: nat)
    requires Late(s, k)
    ensures Enabled(s, FireTimer(0))
    ensures var t := Step(s, FireTimer(0));
            Enabled(t, RunClosure) && (
              var u := Step(t, RunClosure);
              && (k < MAX_RETRIES ==> Late(u, k + 1))
              && (k == MAX_RETRIES ==> FailedLate(u)))
  {
    var t := Step(s, FireTimer(0));
    assert t.queue == [Timeout(0, 0)] && t.queue[1..] == [];
  }

  lemma Expire(capacity: nat, events: seq<Event>, k: nat) returns (more: seq<Event>)
    requires Legal(capacity, events) && Late(Run(capacity, events), k)
    ensures more == events + [FireTimer(0)] + [RunClosure] && Legal(capacity, more)
    ensures k < MAX_RETRIES ==> Late(Run(capacity, more), k + 1)
    ensures k == MAX_RETRIES ==> FailedLate(Run(capacity, more))
  {
    hide Step, Enabled, Late;
    ExpireOnce(Run(capacity, events), k);
    LegalNext(capacity, events, FireTimer(0));
    LegalNext(capacity, events + [FireTimer(0)], RunClosure);
    more := events + [FireTimer(0)] + [RunClosure];
  }

  lemma InsertedLate(s: State)
    requires Consistent(s.pool) && s == Initial(|s.pool.count|) && s.pool.free != []
    ensures var a := Step(s, PostDisable);
            var b := Step(a, StartRequest);
            && Enabled(b, RunClosure)
            && var c := Step(b, RunClosure);
               !c.enabled && c.table == map[] && Enabled(c, RunClosure) && Late(Step(c, RunClosure), 0)
  {
    var a := Step(s, PostDisable);
    var b := Step(a, StartRequest);
    assert b.queue == [Disable, Insert(0)] && b.queue[1..] == [Insert(0)] && b.table == map[];
    DisabledEmpty(b.(queue := [Insert(0)]));
    var c := Step(b, RunClosure);
    assert c.queue[1..] == [];
  }

  lemma DisabledEmpty(s: State)
    requires Consistent(s.pool) && s.table == map[] && |s.txs| == 1 && s.enabled
    ensures var t := OnDisable(s);
            t == s.(pool := t.pool, enabled := false) && t.table == map[] && t.txs == s.txs
  {
    var q, keys := s.(enabled := false), Upto(MAX_ID + 1);
    RemoveKeysFrame(q, keys);
    RemoveKeysEmpties(q, keys);
    RemoveKeysSpares(q, keys, 0);
  }

  /** A legal run, for a pool of any size, in which a transaction fails after the
      disable: the disable empties the table, the insertion queued behind it puts
      the transaction there, and three timeouts later the error callback is made. */
  lemma ErrorAfterDisable(capacity: nat) returns (disabled: seq<Event>, events: seq<Event>)
    requires capacity >= 1
    ensures Legal(capacity, disabled) && !Run(capacity, disabled).enabled && Run(capacity, disabled).table == map[]
    ensures disabled <= events && Legal(capacity, events) && FailedLate(Run(capacity, events))
  {
    hide Step, Enabled, Late, FailedLate;
    InsertedLate(Initial(capacity));
    LegalNext(capacity, [], PostDisable);
    LegalNext(capacity, [] + [PostDisable], StartRequest);
    LegalNext(capacity, [] + [PostDisable] + [StartRequest], RunClosure);
    disabled := [] + [PostDisable] + [StartRequest] + [RunClosure];
    LegalNext(capacity, disabled, RunClosure);
    events := Expire(capacity, disabled + [RunClosure], 0);
    events := Expire(capacity, events, 1);
    events := Expire(capacity, events, 2);
  }
}
