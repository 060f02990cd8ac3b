/** The stream driver: a timer ticks 15 times a second, updates every stream,
    and sends to all of them when all are due. */
module StreamDriver {
  import opened Basics
  import opened MachineInts
  import R = ReliabilityModel
  import Runs = ReliabilityRuns
  import SR = StreamReliability
  import SF = StreamFlow

  const TIMEOUT: real := 5.0
  const TICK: Elapsed := 1.0 / 15.0

  datatype State = Waiting | Connected | Disconnected | TimedOut

  /** What decides when a stream sends: its flow, and the seconds since it was last due. */
  datatype Timing = Timing(flow: SF.Flow, sinceDue: real)

  /** One tick, and whether it makes the stream due. */
  function Tick(t: Timing, rtt: real): (Timing, bool)
    requires SF.Valid(t.flow)
  {
    var flow := SF.Adjust(t.flow, SF.Input(rtt, TICK));
    if t.sinceDue + TICK >= flow.updateInterval then (Timing(flow, 0.0), true)
    else (Timing(flow, t.sinceDue + TICK), false)
  }

  /** The round-trip time once the record with this history has been updated. */
  function RttAfter(events: seq<Runs.Event>): real
  {
    Runs.Run(events + [Runs.Clock(TICK)]).rtt
  }

  lemma RunNext(events: seq<Runs.Event>, e: Runs.Event)
    ensures Runs.Run(events + [e]) == Runs.Apply(Runs.Run(events), e)
  {
    assert Front(events + [e]) == events;
  }

  class Stream {
    const reliability: SR.StreamReliability
    const flow: SF.StreamFlow
    const address: nat
    var state: State
    var timeoutAccumulator: real
    var updateAccumulator: real
    /** What has happened to the reliability record since it was cleared. */
    ghost var events: seq<Runs.Event>

    ghost function Objects(): set<object>
    {
      {this, reliability, reliability.packets, flow}
    }

    ghost predicate Valid()
      reads Objects()
    {
      Recorded() && SF.Valid(flow.Model())
    }

    ghost function Clock(): Timing
      reads this, flow
    {
      Timing(flow.Model(), updateAccumulator)
    }

    constructor (address: nat)
      ensures Valid() && fresh(Objects()) && this.address == address
      ensures state == Waiting && events == [] && timeoutAccumulator == 0.0
      ensures Clock() == Timing(SF.Cleared, 0.0)
    {
      reliability := new SR.StreamReliability();
      flow := new SF.StreamFlow();
      this.address := address;
      state := Waiting;
      timeoutAccumulator, updateAccumulator := 0.0, 0.0;
      events := [];
    }

    /** The reliability record is the one its history leads to. */
    ghost predicate Recorded()
      reads this, reliability, reliability.packets
    {
      reliability.Valid() && reliability.Model() == Runs.Run(events)
    }

    method AgeReliability()
      requires Recorded()
      modifies reliability, reliability.packets, this`events
      ensures Recorded() && events == old(events) + [Runs.Clock(TICK)]
    {
      reliability.Update(TICK);
      events := events + [Runs.Clock(TICK)];
      RunNext(old(events), Runs.Clock(TICK));
    }

    method Update() returns (due: bool, silent: bool)
      requires Valid()
      modifies Objects()
      ensures Valid() && state == old(state)
      ensures events == old(events) + [Runs.Clock(TICK)]
      ensures (Clock(), due) == Tick(old(Clock()), RttAfter(old(events)))
      ensures timeoutAccumulator == old(timeoutAccumulator) + TICK && (silent <==> timeoutAccumulator > TIMEOUT)
    {
      hide SF.Adjust, SF.Valid, Runs.Run;
      AgeReliability();
      flow.Update(reliability.rtt, TICK);
      timeoutAccumulator := timeoutAccumulator + TICK;
      silent := timeoutAccumulator > TIMEOUT;
      updateAccumulator := updateAccumulator + TICK;
      due := updateAccumulator >= flow.updateInterval;
      if due {
        updateAccumulator := 0.0;
      }
    }

    /** Sends nothing unless waiting or connected; the pool may have no packet to give. */
    method Send(size: nat, packetAvailable: bool)
      requires Valid()
      modifies Objects()
      ensures Valid() && state == old(state) && Clock() == old(Clock())
      ensures timeoutAccumulator == old(timeoutAccumulator)
      ensures events == if (state == Connected || state == Waiting) && packetAvailable
                        then old(events) + [Runs.Send(size)] else old(events)
    {
      if state == Connected || state == Waiting {
        if packetAvailable {
          reliability.PacketSent(size);
          events := events + [Runs.Send(size)];
          RunNext(old(events), Runs.Send(size));
        }
      }
    }

    /** Ignores a packet whose ack is beyond the next sequence number. */
    method Receive(sequence: uint32, ack: uint32, ackBits: uint32) returns (forwarded: bool)
      requires Valid()
      modifies Objects()
      ensures Valid() && state == old(state) && Clock() == old(Clock())
      ensures forwarded <==> ack <= old(Runs.Run(events)).sequence
      ensures events == old(events) + [Runs.Receive(sequence, ack, ackBits)]
      ensures timeoutAccumulator == if forwarded then 0.0 else old(timeoutAccumulator)
    {
      forwarded := ack <= reliability.sequence;
      if forwarded {
        timeoutAccumulator := 0.0;
        reliability.PacketReceived(sequence, ack, ackBits);
      }
      events := events + [Runs.Receive(sequence, ack, ackBits)];
      RunNext(old(events), Runs.Receive(sequence, ack, ackBits));
    }
  }

  /** No two streams share an object. */
  ghost predicate Apart(streams: seq<Stream>)
  {
    forall i, j :: 0 <= i < |streams| && 0 <= j < |streams| && i != j ==> streams[i].Objects() !! streams[j].Objects()
  }

  ghost function Footprint(streams: seq<Stream>): set<object>
  {
    set s, o | s in streams && o in s.Objects() :: o
  }

  ghost predicate AllValid(streams: seq<Stream>)
    reads Footprint(streams)
  {
    Apart(streams) && forall k :: 0 <= k < |streams| ==> streams[k].Valid()
  }

  /** What the driver's loops leave alone in the streams they are not at. */
  twostate predicate Untouched(s: Stream)
    reads s, s.flow
  {
    && s.events == old(s.events) && s.state == old(s.state) && s.timeoutAccumulator == old(s.timeoutAccumulator)
    && s.Clock() == old(s.Clock())
  }

  /** One tick of a stream's history and of the time since it last received, which is now past the timeout or not. */
  twostate predicate Updated(s: Stream, overdue: bool)
    reads s, s.flow
  {
    && ClockTicked(s)
    && (overdue <==> s.timeoutAccumulator > TIMEOUT)
    && s.events == old(s.events) + [Runs.Clock(TICK)] && s.state == old(s.state)
    && s.timeoutAccumulator == old(s.timeoutAccumulator) + TICK
  }

  /** The flow has been adjusted once, and the time since the stream was last due goes on or starts again. */
  twostate predicate ClockTicked(s: Stream)
    reads s, s.flow
  {
    SF.Valid(old(s.flow.Model())) && s.Clock() == Tick(old(s.Clock()), RttAfter(old(s.events))).0
  }

  /** The stream's interval, with this tick, has passed. */
  twostate predicate Due(s: Stream)
    reads s, s.flow
  {
    SF.Valid(old(s.flow.Model())) && Tick(old(s.Clock()), RttAfter(old(s.events))).1
  }

  /** The streams marked, in order. */
  function Marked(streams: seq<Stream>, marks: seq<bool>): seq<Stream>
    requires |streams| == |marks|
  {
    if streams == [] then []
    else Marked(Front(streams), Front(marks)) + if Last(marks) then [Last(streams)] else []
  }

  lemma {:induction false} MarkedAmong(streams: seq<Stream>, marks: seq<bool>)
    requires |streams| == |marks|
    ensures forall s :: s in Marked(streams, marks) ==> s in streams
  {
    if streams != [] {
      MarkedAmong(Front(streams), Front(marks));
    }
  }

  twostate predicate Sent(s: Stream, size: nat, packetAvailable: bool)
    reads s, s.flow
  {
    && s.state == old(s.state) && s.Clock() == old(s.Clock())
    && s.timeoutAccumulator == old(s.timeoutAccumulator)
    && s.events == if CanSend(s) && packetAvailable then old(s.events) + [Runs.Send(size)] else old(s.events)
  }

  predicate CanSend(s: Stream)
    reads s`state
  {
    s.state == Connected || s.state == Waiting
  }

  method UpdateOne(streams: seq<Stream>, i: nat) returns (due: bool, silent: bool)
    requires AllValid(streams) && i < |streams|
    modifies streams[i].Objects()
    ensures AllValid(streams) && Updated(streams[i], silent) && (due <==> Due(streams[i]))
    ensures forall k :: 0 <= k < |streams| && k != i ==> Untouched(streams[k])
  {
    due, silent := streams[i].Update();
    forall k | 0 <= k < |streams| && k != i
      ensures streams[k].Valid() && Untouched(streams[k])
    {
      assert streams[k].Objects() !! streams[i].Objects();
    }
  }

  method SendOne(streams: seq<Stream>, i: nat, size: nat, packetAvailable: bool)
    requires AllValid(streams) && i < |streams|
    modifies streams[i].Objects()
    ensures AllValid(streams) && Sent(streams[i], size, packetAvailable)
    ensures forall k :: 0 <= k < |streams| && k != i ==> Untouched(streams[k])
  {
    streams[i].Send(size, packetAvailable);
    forall k | 0 <= k < |streams| && k != i
      ensures streams[k].Valid() && Untouched(streams[k])
    {
      assert streams[k].Objects() !! streams[i].Objects();
    }
  }

  method ReceiveOne(streams: seq<Stream>, i: nat, sequence: uint32, ack: uint32, ackBits: uint32)
      returns (forwarded: bool)
    requires AllValid(streams) && i < |streams|
    modifies streams[i].Objects()
    ensures AllValid(streams)
    ensures forwarded <==> ack <= Runs.Run(old(streams[i].events)).sequence
    ensures streams[i].timeoutAccumulator == if forwarded then 0.0 else old(streams[i].timeoutAccumulator)
    ensures streams[i].Clock() == old(streams[i].Clock()) && streams[i].state == old(streams[i].state)
    ensures streams[i].events == old(streams[i].events) + [Runs.Receive(sequence, ack, ackBits)]
    ensures Runs.Disciplined(old(streams[i].events)) ==> Runs.Disciplined(streams[i].events)
    ensures forall k :: 0 <= k < |streams| && k != i ==> Untouched(streams[k])
  {
    assert Front(streams[i].events + [Runs.Receive(sequence, ack, ackBits)]) == streams[i].events;
    forwarded := streams[i].Receive(sequence, ack, ackBits);
    forall k | 0 <= k < |streams| && k != i
      ensures streams[k].Valid() && Untouched(streams[k])
    {
      assert streams[k].Objects() !! streams[i].Objects();
    }
  }

  method UpdateAll(streams: seq<Stream>) returns (sync: bool, overdue: seq<bool>)
    requires AllValid(streams)
    modifies Footprint(streams)
    ensures AllValid(streams)
    ensures |overdue| == |streams|
    ensures forall k :: 0 <= k < |streams| ==> Updated(streams[k], overdue[k])
    ensures sync <==> forall k :: 0 <= k < |streams| ==> Due(streams[k])
  {
    hide Tick, RttAfter, SF.Valid;
    hide AllValid;
    sync, overdue := true, [];
    for i := 0 to |streams|
      invariant AllValid(streams)
      invariant |overdue| == i
      invariant forall k :: 0 <= k < i ==> Updated(streams[k], overdue[k])
      invariant forall k :: i <= k < |streams| ==> Untouched(streams[k])
      invariant sync <==> forall k :: 0 <= k < i ==> Due(streams[k])
    {
      var due, late := UpdateOne(streams, i);
      sync := sync && due;
      overdue := overdue + [late];
    }
  }

  method SendAll(streams: seq<Stream>, size: nat, packetAvailable: seq<bool>)
    requires AllValid(streams) && |packetAvailable| == |streams|
    modifies Footprint(streams)
    ensures AllValid(streams)
    ensures forall k :: 0 <= k < |streams| ==> Sent(streams[k], size, packetAvailable[k])
  {
    hide AllValid;
    for i := 0 to |streams|
      invariant AllValid(streams)
      invariant forall k :: 0 <= k < i ==> Sent(streams[k], size, packetAvailable[k])
      invariant forall k :: i <= k < |streams| ==> Untouched(streams[k])
    {
      SendOne(streams, i, size, packetAvailable[i]);
    }
  }

  class StreamConfiguration {
    var streams: seq<Stream>
    /** Streams whose timeout closure is queued. */
    var timeouts: seq<Stream>
    /** Addresses whose streamAdd closure is queued. */
    var additions: seq<nat>

    /** Each stream's history meets the discipline under which its ring cannot overrun. */
    ghost predicate Valid()
      reads this, Footprint(streams)
    {
      && AllValid(streams) && this !in Footprint(streams)
      && (forall i :: 0 <= i < |streams| ==> streams[i].Valid() && Runs.Disciplined(streams[i].events))
      && (forall s :: s in timeouts ==> s in streams)
    }

    constructor ()
      ensures Valid() && streams == []
    {
      streams, timeouts, additions := [], [], [];
    }

    /** One tick: update every stream, queueing a timeout for each that is overdue,
        then send to every stream if all are due. */
    method TimerCallback(size: nat, packetAvailable: seq<bool>) returns (sync: bool, overdue: seq<bool>)
      requires Valid() && |packetAvailable| == |streams|
      modifies this`timeouts, Footprint(streams)
      ensures Valid() && streams == old(streams) && additions == old(additions)
      ensures sync <==> forall i :: 0 <= i < |streams| ==> Due(streams[i])
      ensures forall i :: 0 <= i < |streams| ==>
                streams[i].events ==
                Ticked(old(streams[i].events), sync && CanSend(streams[i]) && packetAvailable[i], size)
      ensures |overdue| == |streams| && timeouts == old(timeouts) + Marked(streams, overdue)
      ensures forall i :: 0 <= i < |streams| ==>
                && (overdue[i] <==> streams[i].timeoutAccumulator > TIMEOUT)
                && streams[i].timeoutAccumulator == old(streams[i].timeoutAccumulator) + TICK
                && streams[i].state == old(streams[i].state) && ClockTicked(streams[i])
    {
      hide Tick, RttAfter, SF.Valid;
      hide Stream.Valid, Marked;
      sync, overdue := UpdateAll(streams);
      MarkedAmong(streams, overdue);
      timeouts := timeouts + Marked(streams, overdue);
      if sync {
        SendAll(streams, size, packetAvailable);
      }
      forall i | 0 <= i < |streams|
        ensures Runs.Disciplined(streams[i].events)
      {
        TickIsDisciplined(old(streams[i].events), sync && CanSend(streams[i]) && packetAvailable[i], size);
      }
    }

    /** The first stream with the address gets the packet; with none, adding one is queued and the packet dropped. */
    method SocketReceive(address: nat, sequence: uint32, ack: uint32, ackBits: uint32) returns (i: int, forwarded: bool)
      requires Valid()
      modifies this`additions, Footprint(streams)
      ensures Valid() && streams == old(streams) && timeouts == old(timeouts)
      ensures -1 <= i < |streams| && (i >= 0 ==> streams[i].address == address)
      ensures forall k :: 0 <= k < (if i < 0 then |streams| else i) ==> streams[k].address != address
      ensures additions == if i < 0 then old(additions) + [address] else old(additions)
      ensures forwarded <==> i >= 0 && ack <= Runs.Run(old(streams[i].events)).sequence
      ensures i >= 0 ==>
                && streams[i].timeoutAccumulator == (if forwarded then 0.0 else old(streams[i].timeoutAccumulator))
                && streams[i].Clock() == old(streams[i].Clock()) && streams[i].state == old(streams[i].state)
      ensures i >= 0 ==> streams[i].events == old(streams[i].events) + [Runs.Receive(sequence, ack, ackBits)]
      ensures forall k :: 0 <= k < |streams| && k != i ==> Untouched(streams[k])
    {
      hide Stream.Valid;
      i := 0;
      while i < |streams| && streams[i].address != address
        invariant 0 <= i <= |streams|
        invariant forall k :: 0 <= k < i ==> streams[k].address != address
      {
        i := i + 1;
      }
      if i == |streams| {
        additions := additions + [address];
        return -1, false;
      }
      forwarded := ReceiveOne(streams, i, sequence, ack, ackBits);
    }

    /** The streams before, and one more that waits at the address and has no history. */
    ghost predicate NewLast(before: seq<Stream>, address: nat)
      reads this, streams, Footprint(streams)
    {
      && streams != [] && Front(streams) == before
      && Last(streams).address == address && Last(streams).state == Waiting && Last(streams).events == []
      && Last(streams) in streams && Last(streams).flow in Footprint(streams)
      && Last(streams).Clock() == Timing(SF.Cleared, 0.0) && Last(streams).timeoutAccumulator == 0.0
    }

    method RunAddition() returns (added: bool)
      requires Valid() && additions != []
      modifies this`streams, this`additions
      ensures Valid() && additions == old(additions)[1..]
      ensures added <==> !exists i :: 0 <= i < |old(streams)| && old(streams)[i].address == old(additions)[0]
      ensures if added then NewLast(old(streams), old(additions)[0]) else streams == old(streams)
    {
      var address := additions[0];
      additions := additions[1..];
      added := Add(address);
    }

    /** So no ring of a running driver is ever overrun, and its byte count is that of its sent window. */
    lemma NeverOverruns(i: nat)
      requires Valid() && i < |streams|
      ensures var r := streams[i].reliability.Model();
              r.sentLen <= 16 && r.ackedLen <= 30 && r.sentBytes == Runs.Bytes(R.SentWindow(r))
    {
      Runs.NoOverrun(streams[i].events);
      Runs.DisciplinedConservation(streams[i].events);
    }

    method RunTimeout()
      requires Valid() && timeouts != []
      modifies this`timeouts, timeouts[0]
      ensures Valid() && streams == old(streams)
      ensures timeouts == old(timeouts)[1..] && old(timeouts[0]).state == TimedOut
      ensures var s := old(timeouts[0]);
              && s.events == old(timeouts[0].events) && s.Clock() == old(timeouts[0].Clock())
              && s.timeoutAccumulator == old(timeouts[0].timeoutAccumulator)
    {
      timeouts[0].state := TimedOut;
      timeouts := timeouts[1..];
    }

    method Add(address: nat) returns (added: bool)
      requires Valid()
      modifies this`streams
      ensures Valid()
      ensures added <==> !exists i :: 0 <= i < |old(streams)| && old(streams)[i].address == address
      ensures if added then NewLast(old(streams), address) else streams == old(streams)
    {
      hide Stream.Valid;
      for i := 0 to |streams|
        invariant forall k :: 0 <= k < i ==> streams[k].address != address
      {
        if streams[i].address == address {
          return false;
        }
      }
      label before:
      var s := new Stream(address);
      forall k | 0 <= k < |streams|
        ensures streams[k].Valid() && streams[k].events == old@before(streams[k].events)
        ensures streams[k].Objects() !! s.Objects()
      {
      }
      streams := streams + [s];
      added := true;
    }
  }

  /** A history after one tick. */
  function Ticked(before: seq<Runs.Event>, sent: bool, size: nat): seq<Runs.Event>
  {
    before + [Runs.Clock(TICK)] + if sent then [Runs.Send(size)] else []
  }

  /** An update always comes between two sends of the driver. */
  lemma TickIsDisciplined(before: seq<Runs.Event>, sent: bool, size: nat)
    requires Runs.Disciplined(before)
    ensures Runs.Disciplined(Ticked(before, sent, size))
  {
    var updated := before + [Runs.Clock(TICK)];
    assert Front(updated) == before && updated + [] == updated;
    assert Front(updated + [Runs.Send(size)]) == updated;
  }
}
