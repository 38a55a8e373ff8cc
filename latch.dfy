/**
 * The alert latch shared by the buzzer and the LED-matrix tasks.
 *
 * Each task blocks on its queue while idle. A sample that alerts starts a
 * loop: one pulse (three beeps, or a triangle then a blank frame), then a
 * non-blocking probe of the queue. An empty probe counts as "still alerting";
 * only a probed sample that does not alert ends the loop, and the actuator is
 * then switched off. Here one tick is one receive or probe together with the
 * actuation that follows it.
 */
module Latch {
  import opened Wrappers
  import opened Sensor
  import opened Queue

  /** Idle: blocked on the queue. Alerting: inside the pulse-and-probe loop. */
  datatype Mode = Idle | Alerting

  /**
   * What a tick does to the actuator. Wait: the blocking receive found
   * nothing, nothing happens. Quiet: an idle task received a sample that does
   * not alert and switches its actuator off. Pulse: one alert pulse. Release:
   * the probe found a sample that does not alert, the loop ends and the
   * actuator is switched off.
   */
  datatype Action = Wait | Quiet | Pulse | Release

  datatype Transition = Transition(next: Mode, action: Action)

  /** One tick, given what the receive (when idle) or the probe (when alerting) returned. */
  function Step(mode: Mode, input: Option<Sample>): (t: Transition)
    ensures t.next == Alerting <==> t.action == Pulse
    ensures input.None? ==> t.next == mode
    ensures input.Some? ==> (t.next == Alerting <==> IsAlert(input.value))
    ensures t.action == Wait <==> mode == Idle && input.None?
    ensures t.action == Release <==> mode == Alerting && input.Some? && !IsAlert(input.value)
  {
    match (mode, input)
    case (Idle, None) => Transition(Idle, Wait)
    case (Alerting, None) => Transition(Alerting, Pulse)
    case (_, Some(s)) =>
      if IsAlert(s) then Transition(Alerting, Pulse)
      else if mode == Idle then Transition(Idle, Quiet)
      else Transition(Idle, Release)
  }

  /** The mode after a tick for each input, in order. */
  function Run(mode: Mode, inputs: seq<Option<Sample>>): Mode
  {
    if inputs == [] then mode
    else Step(Run(mode, inputs[..|inputs| - 1]), inputs[|inputs| - 1]).next
  }

  /** The actions those ticks perform, in order. */
  function Actions(mode: Mode, inputs: seq<Option<Sample>>): (acts: seq<Action>)
    ensures |acts| == |inputs|
  {
    if inputs == [] then []
    else
      var init := inputs[..|inputs| - 1];
      Actions(mode, init) + [Step(Run(mode, init), inputs[|inputs| - 1]).action]
  }

  /** The i-th action is the step taken on the i-th input from the mode the earlier inputs left. */
  lemma {:induction false} ActionsAt(mode: Mode, inputs: seq<Option<Sample>>, i: nat)
    requires i < |inputs|
    ensures Actions(mode, inputs)[i] == Step(Run(mode, inputs[..i]), inputs[i]).action
  {
    var init := inputs[..|inputs| - 1];
    if i < |init| {
      ActionsAt(mode, init, i);
      assert init[..i] == inputs[..i];
    }
  }

  lemma RunSnoc(mode: Mode, inputs: seq<Option<Sample>>, x: Option<Sample>)
    ensures Run(mode, inputs + [x]) == Step(Run(mode, inputs), x).next
    ensures Actions(mode, inputs + [x]) == Actions(mode, inputs) + [Step(Run(mode, inputs), x).action]
  {
    assert (inputs + [x])[..|inputs|] == inputs;
  }

  /**
   * A task that has been served `i` receives from a queue nobody sends to
   * takes its next step on the next queued sample, or on nothing once the
   * queue is drained.
   */
  lemma FeedStep(items0: seq<Sample>, mode0: Mode, i: nat, items: seq<Sample>, mode: Mode)
    requires items == items0[Min(i, |items0|)..]
    requires mode == Run(mode0, Feed(items0, i))
    ensures Rest(items) == items0[Min(i + 1, |items0|)..]
    ensures Step(mode, Head(items)).next == Run(mode0, Feed(items0, i + 1))
    ensures Actions(mode0, Feed(items0, i + 1)) == Actions(mode0, Feed(items0, i)) + [Step(mode, Head(items)).action]
  {
    FeedSnoc(items0, i);
    RunSnoc(mode0, Feed(items0, i), Head(items));
  }

  /** The most recent sample among the inputs, if any. */
  function LastReading(inputs: seq<Option<Sample>>): Option<Sample>
  {
    if inputs == [] then None
    else if inputs[|inputs| - 1].Some? then inputs[|inputs| - 1]
    else LastReading(inputs[..|inputs| - 1])
  }

  lemma LastReadingSnoc(inputs: seq<Option<Sample>>, x: Option<Sample>)
    ensures LastReading(inputs + [x]) == if x.Some? then x else LastReading(inputs)
  {
    assert (inputs + [x])[..|inputs|] == inputs;
  }

  /**
   * After k receives from a queue nobody sends to, the last sample seen is the
   * k-th queued one, or the last queued one once the queue has run dry, or
   * nothing when no sample was queued or no receive happened.
   */
  lemma {:induction false} LastReadingOfFeed(items: seq<Sample>, k: nat)
    ensures LastReading(Feed(items, k)) ==
            if Min(k, |items|) == 0 then None else Some(items[Min(k, |items|) - 1])
  {
    if k > 0 {
      LastReadingOfFeed(items, k - 1);
      LastReadingSnoc(Feed(items, k - 1), if k - 1 < |items| then Some(items[k - 1]) else None);
    }
  }

  /**
   * The latch is decided by the last sample the task saw: alerting if it
   * alerts, idle if not, the initial mode if it saw none. Missing data never
   * changes the mode.
   */
  lemma {:induction false} RunFollowsLastReading(mode: Mode, inputs: seq<Option<Sample>>)
    ensures Run(mode, inputs) == match LastReading(inputs)
                                 case None => mode
                                 case Some(s) => if IsAlert(s) then Alerting else Idle
  {
    if inputs != [] {
      RunFollowsLastReading(mode, inputs[..|inputs| - 1]);
    }
  }

  /** No input is a sample that clears the alert: each is an empty probe or an alerting sample. */
  predicate NeverCleared(inputs: seq<Option<Sample>>)
  {
    forall i :: 0 <= i < |inputs| ==> inputs[i].None? || IsAlert(inputs[i].value)
  }

  /** No input is an alerting sample. */
  predicate NeverAlerting(inputs: seq<Option<Sample>>)
  {
    forall i :: 0 <= i < |inputs| ==> inputs[i].None? || !IsAlert(inputs[i].value)
  }

  /** Once alerting, the task pulses on every tick for as long as no probe clears it. */
  lemma {:induction false} LatchPersists(inputs: seq<Option<Sample>>)
    requires NeverCleared(inputs)
    ensures Run(Alerting, inputs) == Alerting
    ensures forall i :: 0 <= i < |inputs| ==> Actions(Alerting, inputs)[i] == Pulse
  {
    if inputs != [] {
      var init := inputs[..|inputs| - 1];
      assert NeverCleared(init) by {
        forall i | 0 <= i < |init| ensures init[i].None? || IsAlert(init[i].value) {
          assert init[i] == inputs[i];
        }
      }
      LatchPersists(init);
    }
  }

  /**
   * The loop ends exactly at the first probed sample that does not alert:
   * that tick releases the actuator and returns the task to idle.
   */
  lemma ReleasesAtFirstClearingProbe(inputs: seq<Option<Sample>>, s: Sample)
    requires NeverCleared(inputs) && !IsAlert(s)
    ensures Run(Alerting, inputs + [Some(s)]) == Idle
    ensures Actions(Alerting, inputs + [Some(s)]) == Actions(Alerting, inputs) + [Release]
  {
    LatchPersists(inputs);
    assert (inputs + [Some(s)])[..|inputs|] == inputs;
  }

  /** `n` non-blocking probes of an empty queue. */
  function EmptyProbes(n: nat): seq<Option<Sample>>
  {
    seq(n, i => None)
  }

  /** However many probes in a row find no data, the task keeps alerting and pulsing. */
  lemma EmptyProbesKeepAlerting(n: nat)
    ensures Run(Alerting, EmptyProbes(n)) == Alerting
    ensures Actions(Alerting, EmptyProbes(n)) == seq(n, i => Pulse)
  {
    LatchPersists(EmptyProbes(n));
  }

  /** An idle task that is never handed an alerting sample stays idle and never pulses. */
  lemma {:induction false} QuietInputsNeverPulse(inputs: seq<Option<Sample>>)
    requires NeverAlerting(inputs)
    ensures Run(Idle, inputs) == Idle
    ensures forall i :: 0 <= i < |inputs| ==> Actions(Idle, inputs)[i] in {Wait, Quiet}
  {
    if inputs != [] {
      var init := inputs[..|inputs| - 1];
      assert NeverAlerting(init) by {
        forall i | 0 <= i < |init| ensures init[i].None? || !IsAlert(init[i].value) {
          assert init[i] == inputs[i];
        }
      }
      QuietInputsNeverPulse(init);
    }
  }

  /** An alerting sample sets off a pulse on the very tick it is received, idle or not. */
  lemma AlertSampleStartsPulsing(mode: Mode, s: Sample)
    requires IsAlert(s)
    ensures Step(mode, Some(s)) == Transition(Alerting, Pulse)
  {
  }
}
