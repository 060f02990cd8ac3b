/** Flow control: a good mode at 15 updates a second and a bad mode at 5, with a
    penalty time that must pass in good conditions before the good mode returns. */
module StreamFlow {

  import opened Basics

  /** Seconds between sends at 5 and at 15 updates a second. */
  const BAD_INTERVAL: real := 0.2
  const GOOD_INTERVAL: real := 1.0 / 15.0

  const RTT_THRESHOLD: real := 0.25

  datatype Flow = Flow(good: bool, updateInterval: real, goodConditions: real, penalty: real, accumulator: real)

  datatype Input = Input(rtt: real, dt: Elapsed)

  predicate Valid(f: Flow)
  {
    && 1.0 <= f.penalty <= 60.0
    && f.updateInterval == (if f.good then GOOD_INTERVAL else BAD_INTERVAL)
    && 0.0 <= f.goodConditions
    && 0.0 <= f.accumulator
    && (!f.good ==> f.goodConditions <= f.penalty)
    && (f.good ==> f.accumulator <= f.goodConditions)
  }

  const Cleared := Flow(false, BAD_INTERVAL, 0.0, 4.0, 0.0)

  function Min(x: real, y: real): real
  {
    if x < y then x else y
  }

  function Max(x: real, y: real): real
  {
    if x > y then x else y
  }

  /** One update as a two-state machine. */
  function Adjust(f: Flow, i: Input): (g: Flow)
    requires Valid(f)
    ensures Valid(g)
  {
    if f.good then
      if i.rtt > RTT_THRESHOLD then
        Flow(false, BAD_INTERVAL, 0.0, if f.goodConditions < 10.0 then Min(60.0, f.penalty * 2.0) else f.penalty, 0.0)
      else if f.accumulator + i.dt > 10.0 && f.penalty > 1.0 then
        f.(goodConditions := f.goodConditions + i.dt, penalty := Max(1.0, f.penalty / 2.0), accumulator := 0.0)
      else
        f.(goodConditions := f.goodConditions + i.dt, accumulator := f.accumulator + i.dt)
    else
      var g := if i.rtt <= RTT_THRESHOLD then f.goodConditions + i.dt else 0.0;
      if g > f.penalty then Flow(true, GOOD_INTERVAL, 0.0, f.penalty, 0.0)
      else f.(goodConditions := g)
  }

  class StreamFlow {
    var good: bool
    var updateInterval: real
    var goodConditions: real
    var penalty: real
    var penaltyReductionAccumulator: real

    ghost function Model(): Flow
      reads this
    {
      Flow(good, updateInterval, goodConditions, penalty, penaltyReductionAccumulator)
    }

    constructor ()
      ensures Valid(Model()) && Model() == Cleared
    {
      good := false;
      updateInterval := BAD_INTERVAL;
      penalty := 4.0;
      goodConditions := 0.0;
      penaltyReductionAccumulator := 0.0;
    }

    /** The two blocks run in this order, so leaving the good mode falls through into the second. */
    method Update(rtt: real, deltaTime: Elapsed)
      requires Valid(Model())
      modifies this
      ensures Valid(Model()) && Model() == old(Adjust(Model(), Input(rtt, deltaTime)))
    {
      if good {
        if rtt > RTT_THRESHOLD {
          good := false;
          updateInterval := BAD_INTERVAL;
          if goodConditions < 10.0 && penalty < 60.0 {
            penalty := penalty * 2.0;
            if penalty > 60.0 {
              penalty := 60.0;
            }
          }
          goodConditions := 0.0;
          penaltyReductionAccumulator := 0.0;
        } else {
          goodConditions := goodConditions + deltaTime;
          penaltyReductionAccumulator := penaltyReductionAccumulator + deltaTime;
          if penaltyReductionAccumulator > 10.0 && penalty > 1.0 {
            penalty := penalty / 2.0;
            if penalty < 1.0 {
              penalty := 1.0;
            }
            penaltyReductionAccumulator := 0.0;
          }
        }
      }
      if !good {
        if rtt <= RTT_THRESHOLD {
          goodConditions := goodConditions + deltaTime;
        } else {
          goodConditions := 0.0;
        }
        if goodConditions > penalty {
          goodConditions := 0.0;
          penaltyReductionAccumulator := 0.0;
          good := true;
          updateInterval := GOOD_INTERVAL;
        }
      }
    }
  }

  // ----- whole runs

  function Run(start: Flow, inputs: seq<Input>): (f: Flow)
    requires Valid(start)
    ensures Valid(f)
  {
    if inputs == [] then start else Adjust(Run(start, Front(inputs)), Last(inputs))
  }

  function TimeOf(inputs: seq<Input>): (t: real)
    ensures t >= 0.0
  {
    if inputs == [] then 0.0 else TimeOf(Front(inputs)) + Last(inputs).dt
  }

  /** The last input brought the good mode back. */
  predicate Returned(start: Flow, inputs: seq<Input>)
    requires Valid(start) && inputs != []
  {
    !Run(start, Front(inputs)).good && Run(start, inputs).good
  }

  predicate Dropped(start: Flow, inputs: seq<Input>)
    requires Valid(start) && inputs != []
  {
    Run(start, Front(inputs)).good && !Run(start, inputs).good
  }

  function Returns(start: Flow, inputs: seq<Input>): nat
    requires Valid(start)
  {
    if inputs == [] then 0 else Returns(start, Front(inputs)) + if Returned(start, inputs) then 1 else 0
  }

  function Drops(start: Flow, inputs: seq<Input>): nat
    requires Valid(start)
  {
    if inputs == [] then 0 else Drops(start, Front(inputs)) + if Dropped(start, inputs) then 1 else 0
  }

  /** The penalties in force at the returns, added up. */
  function PenaltiesPaid(start: Flow, inputs: seq<Input>): real
    requires Valid(start)
  {
    if inputs == [] then 0.0
    else PenaltiesPaid(start, Front(inputs)) + if Returned(start, inputs) then Run(start, inputs).penalty else 0.0
  }

  /** The inputs from k on are all good, and meet a record in bad mode with no good time to its credit. */
  predicate GoodSince(start: Flow, inputs: seq<Input>, k: nat)
    requires Valid(start) && k <= |inputs|
  {
    && !Run(start, inputs).good
    && if k == |inputs| then Run(start, inputs).goodConditions == 0.0
       else Last(inputs).rtt <= RTT_THRESHOLD && GoodSince(start, Front(inputs), k)
  }

  /** No later stretch than from k on is unbroken: k is the start, or follows a bad round trip. */
  predicate StretchStarts(inputs: seq<Input>, k: nat)
    requires k <= |inputs|
  {
    k == 0 || inputs[k - 1].rtt > RTT_THRESHOLD
  }

  /** In the bad mode the credit is the time of the whole unbroken good stretch so
      far, which reaches back to the start or to the last bad round trip. */
  lemma {:induction false} GoodTimeIsConsecutive(start: Flow, inputs: seq<Input>) returns (k: nat)
    requires Valid(start) && start.goodConditions == 0.0 && !Run(start, inputs).good
    ensures k <= |inputs| && StretchStarts(inputs, k) && GoodSince(start, inputs, k)
    ensures Run(start, inputs).goodConditions == TimeOf(inputs[k..])
  {
    k := |inputs|;
    if inputs != [] && Last(inputs).rtt <= RTT_THRESHOLD {
      k := GoodTimeIsConsecutive(start, Front(inputs));
      assert Front(inputs[k..]) == Front(inputs)[k..];
    }
  }

  /** The good mode comes back only after more than `penalty` seconds without one bad round trip. */
  lemma ReturnNeedsPenalty(start: Flow, inputs: seq<Input>) returns (k: nat)
    requires Valid(start) && start.goodConditions == 0.0 && inputs != [] && Returned(start, inputs)
    ensures k < |inputs| && GoodSince(start, Front(inputs), k) && Last(inputs).rtt <= RTT_THRESHOLD
    ensures TimeOf(inputs[k..]) > Run(start, inputs).penalty
  {
    k := GoodTimeIsConsecutive(start, Front(inputs));
    assert Front(inputs[k..]) == Front(inputs)[k..];
  }

  predicate AllGood(inputs: seq<Input>)
  {
    forall i :: 0 <= i < |inputs| ==> inputs[i].rtt <= RTT_THRESHOLD
  }

  /** And it does come back then: from the bad mode, an unbroken good stretch brings
      the good mode with the first input that takes the credit past the penalty, and
      not before. */
  lemma {:induction false} ReturnsOncePaid(start: Flow, inputs: seq<Input>)
    requires Valid(start) && !start.good && AllGood(inputs)
    requires inputs != [] ==> start.goodConditions + TimeOf(Front(inputs)) <= start.penalty
    ensures var f := Run(start, inputs);
            && (f.good <==> start.goodConditions + TimeOf(inputs) > start.penalty)
            && f.penalty == start.penalty
            && f.goodConditions == if f.good then 0.0 else start.goodConditions + TimeOf(inputs)
  {
    if inputs != [] {
      var before := Front(inputs);
      assert before != [] ==> TimeOf(before) == TimeOf(Front(before)) + Last(before).dt;
      ReturnsOncePaid(start, before);
    }
  }

  /** One bad round trip, in either mode, leaves the bad mode and no credit. */
  lemma BadRoundTripForfeits(f: Flow, i: Input)
    requires Valid(f) && i.rtt > RTT_THRESHOLD
    ensures !Adjust(f, i).good && Adjust(f, i).goodConditions == 0.0
    ensures !f.good ==> Adjust(f, i).penalty == f.penalty
  {
  }

  /** In the good mode the credit is the time since the mode came back. */
  lemma {:induction false} GoodPeriodIsItsTime(start: Flow, inputs: seq<Input>) returns (k: nat)
    requires Valid(start) && !start.good && Run(start, inputs).good
    ensures 0 < k <= |inputs| && Returned(start, inputs[..k])
    ensures forall j :: k <= j <= |inputs| ==> Run(start, inputs[..j]).good
    ensures Run(start, inputs).goodConditions == TimeOf(inputs[k..])
  {
    var before, n := Front(inputs), |inputs|;
    assert inputs[..n] == inputs && inputs[..n - 1] == before;
    if Run(start, before).good {
      k := GoodPeriodIsItsTime(start, before);
      assert Front(inputs[k..]) == before[k..];
      assert forall j :: 0 <= j <= n - 1 ==> before[..j] == inputs[..j];
    } else {
      k := n;
    }
  }

  // ----- recovery

  /** How often more than ten seconds have passed since the last time they had, and
      the time since, with `elapsed` seconds gone at the start. */
  function Periods(elapsed: real, inputs: seq<Input>): (nat, real)
  {
    if inputs == [] then (0, elapsed)
    else
      var (k, t) := Periods(elapsed, Front(inputs));
      if t + Last(inputs).dt > 10.0 then (k + 1, 0.0) else (k, t + Last(inputs).dt)
  }

  function Halved(p: real, k: nat): real
  {
    if k == 0 then p else Halved(p, k - 1) / 2.0
  }

  /** In an unbroken good stretch of the good mode the penalty is halved with every
      ten seconds that pass, down to 1, and nothing else happens to it. */
  lemma {:induction false} PenaltyRecovers(start: Flow, inputs: seq<Input>)
    requires Valid(start) && start.good && AllGood(inputs)
    ensures var f, (k, t) := Run(start, inputs), Periods(start.accumulator, inputs);
            && f.good && f.goodConditions == start.goodConditions + TimeOf(inputs)
            && f.penalty == Max(1.0, Halved(start.penalty, k))
            && (f.penalty > 1.0 ==> f.accumulator == t)
  {
    if inputs != [] {
      PenaltyRecovers(start, Front(inputs));
    }
  }

  /** Returns are paid for in elapsed time, so in T seconds there are fewer than T of them. */
  lemma {:induction false} ReturnsArePaid(start: Flow, inputs: seq<Input>)
    requires Valid(start) && start.goodConditions == 0.0
    ensures Returns(start, inputs) as real <= PenaltiesPaid(start, inputs) <= TimeOf(inputs)
    ensures Returns(start, inputs) > 0 ==> PenaltiesPaid(start, inputs) < TimeOf(inputs)
    ensures !Run(start, inputs).good ==>
              PenaltiesPaid(start, inputs) + Run(start, inputs).goodConditions <= TimeOf(inputs)
  {
    if inputs != [] {
      ReturnsArePaid(start, Front(inputs));
    }
  }

  /** Until now no good period has lasted 10 seconds. */
  predicate ShortGoodPeriods(start: Flow, inputs: seq<Input>)
    requires Valid(start)
  {
    && (Run(start, inputs).good ==> Run(start, inputs).goodConditions < 10.0)
    && (inputs != [] ==> ShortGoodPeriods(start, Front(inputs)))
  }

  function Doubled(p: real, k: nat): real
  {
    if k == 0 then p else 2.0 * Doubled(p, k - 1)
  }

  /** After k drops out of short good periods the penalty is p * 2^k, capped at 60. */
  lemma {:induction false} ExponentialBackoff(start: Flow, inputs: seq<Input>)
    requires Valid(start) && ShortGoodPeriods(start, inputs)
    ensures Run(start, inputs).penalty == Min(60.0, Doubled(start.penalty, Drops(start, inputs)))
  {
    if inputs != [] {
      ExponentialBackoff(start, Front(inputs));
    }
  }

  /** A drop raises the penalty if and only if the good period was short and the cap is not reached. */
  lemma DropRaisesPenaltyIff(f: Flow, i: Input)
    requires Valid(f) && f.good && i.rtt > RTT_THRESHOLD
    ensures !Adjust(f, i).good
    ensures Adjust(f, i).penalty > f.penalty <==> f.goodConditions < 10.0 && f.penalty < 60.0
    ensures Adjust(f, i).penalty >= f.penalty
  {
  }
}
