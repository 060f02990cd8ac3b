/** When a stream is due: whole runs of the driver's ticks, 1/15 of a second apart. */
module DriverTiming {
  import opened Basics
  import opened StreamDriver
  import SF = StreamFlow

  /** A new stream after ticks that found these round-trip times. */
  function Ticks(rtts: seq<real>): (t: Timing)
    ensures SF.Valid(t.flow)
  {
    if rtts == [] then Timing(SF.Cleared, 0.0) else Tick(Ticks(Front(rtts)), Last(rtts)).0
  }

  /** The last tick made the stream due. */
  predicate DueAt(rtts: seq<real>)
    requires rtts != []
  {
    Tick(Ticks(Front(rtts)), Last(rtts)).1
  }

  /** How many ticks have passed since the stream was last due, or since it was made. */
  function Waited(rtts: seq<real>): nat
  {
    if rtts == [] || DueAt(rtts) then 0 else 1 + Waited(Front(rtts))
  }

  lemma {:induction false} WaitedTime(rtts: seq<real>)
    ensures 15.0 * Ticks(rtts).sinceDue == Waited(rtts) as real && Waited(rtts) <= 2
  {
    if rtts != [] {
      WaitedTime(Front(rtts));
    }
  }

  /** Whatever the round-trip times and the changes of mode, a tick makes the stream
      due if and only if it leaves the good mode on or is the third since the last. */
  lemma DueIff(rtts: seq<real>)
    requires rtts != []
    ensures DueAt(rtts) <==> Ticks(rtts).flow.good || Waited(Front(rtts)) == 2
  {
    WaitedTime(Front(rtts));
  }

  /** So while the bad mode lasts the stream is due at every third tick and no other. */
  lemma {:induction false} EveryThirdTick(rtts: seq<real>)
    requires rtts != [] && forall i :: 0 <= i <= |rtts| ==> !Ticks(rtts[..i]).flow.good
    ensures DueAt(rtts) <==> |rtts| % 3 == 0
    ensures Waited(rtts) == |rtts| % 3
  {
    var before := Front(rtts);
    assert rtts[..|rtts|] == rtts;
    DueIff(rtts);
    if before != [] {
      assert forall i :: 0 <= i <= |before| ==> before[..i] == rtts[..i];
      EveryThirdTick(before);
    }
  }

  /** The flow takes one input a tick, so its laws hold of the driver. */
  lemma {:induction false} FlowOfTicks(rtts: seq<real>)
    ensures Ticks(rtts).flow == SF.Run(SF.Cleared, Inputs(rtts))
  {
    if rtts != [] {
      FlowOfTicks(Front(rtts));
      assert Front(Inputs(rtts)) == Inputs(Front(rtts));
    }
  }

  function Inputs(rtts: seq<real>): seq<SF.Input>
  {
    seq(|rtts|, i requires 0 <= i < |rtts| => SF.Input(rtts[i], TICK))
  }

  lemma {:induction false} TimeOfTicks(rtts: seq<real>)
    ensures 15.0 * SF.TimeOf(Inputs(rtts)) == |rtts| as real
  {
    if rtts != [] {
      TimeOfTicks(Front(rtts));
      assert Front(Inputs(rtts)) == Inputs(Front(rtts));
    }
  }

  predicate AllGood(rtts: seq<real>)
  {
    forall i :: 0 <= i < |rtts| ==> rtts[i] <= 0.25
  }

  /** A new stream over a good connection: 60 ticks in the bad mode, and from the
      61st on the good mode, due at every tick. */
  lemma {:induction false} FirstFourSeconds(rtts: seq<real>)
    requires AllGood(rtts)
    ensures Ticks(rtts).flow.good <==> |rtts| > 60
    ensures rtts != [] ==> (DueAt(rtts) <==> |rtts| > 60 || |rtts| % 3 == 0)
  {
    if rtts != [] {
      hide Ticks, DueAt, Waited, Tick;
      var before := Front(rtts);
      FirstFourSeconds(before);
      DueIff(rtts);
      if |rtts| <= 61 {
        ModeAfter(rtts);
        BadUntil(before);
      } else {
        StaysGood(before, Last(rtts));
        assert rtts == before + [Last(rtts)];
      }
    }
  }

  lemma StaysGood(rtts: seq<real>, rtt: real)
    requires Ticks(rtts).flow.good && rtt <= 0.25
    ensures Ticks(rtts + [rtt]).flow.good
  {
    assert Front(rtts + [rtt]) == rtts;
  }

  lemma ModeAfter(rtts: seq<real>)
    requires AllGood(rtts) && |rtts| <= 61
    ensures Ticks(rtts).flow.good <==> |rtts| == 61
  {
    FlowOfTicks(rtts);
    TimeOfTicks(rtts);
    if rtts != [] {
      TimeOfTicks(Front(rtts));
      assert Front(Inputs(rtts)) == Inputs(Front(rtts));
    }
    SF.ReturnsOncePaid(SF.Cleared, Inputs(rtts));
  }

  lemma BadUntil(rtts: seq<real>)
    requires AllGood(rtts) && |rtts| <= 60
    ensures Waited(rtts) == |rtts| % 3
  {
    forall i | 0 <= i <= |rtts|
      ensures !Ticks(rtts[..i]).flow.good
    {
      ModeAfter(rtts[..i]);
    }
    if rtts != [] {
      EveryThirdTick(rtts);
    }
  }

  /** The time since a stream last received, after n ticks with nothing received. */
  function SilentFor(n: nat): real
  {
    if n == 0 then 0.0 else SilentFor(n - 1) + TICK
  }

  /** A silent stream is overdue from its 76th tick on. */
  lemma {:induction false} OverdueAfter(n: nat)
    ensures 15.0 * SilentFor(n) == n as real
    ensures SilentFor(n) > TIMEOUT <==> n > 75
  {
    if n > 0 {
      OverdueAfter(n - 1);
    }
  }
}
