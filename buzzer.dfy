/** The buzzer task: three short beeps per alert pulse, silence otherwise. */
module BuzzerTask {
  import opened Wrappers
  import opened Sensor
  import opened Queue
  import opened Latch
  import opened SeqFacts

  const BEEPS_PER_PULSE: nat := 3

  /** The pin levels written by `n` beeps: on, off, on, off, ... */
  function Beeps(n: nat): (w: seq<bool>)
    ensures |w| == 2 * n
    ensures forall k :: 0 <= k < |w| ==> w[k] == (k % 2 == 0)
  {
    if n == 0 then [] else Beeps(n - 1) + [true, false]
  }

  /** How many times the levels switch the buzzer on. */
  function CountOn(w: seq<bool>): nat
  {
    if w == [] then 0 else CountOn(w[..|w| - 1]) + (if w[|w| - 1] then 1 else 0)
  }

  lemma {:induction false} BeepsSwitchOnOncePerBeep(n: nat)
    ensures CountOn(Beeps(n)) == n
  {
    if n > 0 {
      BeepsSwitchOnOncePerBeep(n - 1);
      var w := Beeps(n - 1);
      assert (w + [true, false])[..|w| + 1] == w + [true];
      assert (w + [true])[..|w|] == w;
    }
  }

  /** The levels a tick writes to the buzzer pin. */
  function PinLevels(a: Action): (w: seq<bool>)
    ensures a == Wait <==> w == []
    ensures w != [] ==> !w[|w| - 1]
    ensures CountOn(w) == if a == Pulse then BEEPS_PER_PULSE else 0
  {
    BeepsSwitchOnOncePerBeep(BEEPS_PER_PULSE);
    assert [false][..0] == [];
    match a
    case Wait => []
    case Quiet => [false]
    case Pulse => Beeps(BEEPS_PER_PULSE)
    case Release => [false]
  }

  /** The levels a run of ticks writes, in order. */
  function LevelTrace(acts: seq<Action>): seq<bool>
  {
    if acts == [] then [] else LevelTrace(acts[..|acts| - 1]) + PinLevels(acts[|acts| - 1])
  }

  /** One more action appends that tick's levels to the trace. */
  lemma LevelTraceSnoc(acts: seq<Action>, a: Action)
    ensures LevelTrace(acts + [a]) == LevelTrace(acts) + PinLevels(a)
  {
    assert (acts + [a])[..|acts|] == acts;
  }

  /** Levels written so far, followed by one more tick's, are the trace of one more action. */
  lemma TraceSnoc(writes0: seq<bool>, acts: seq<Action>, a: Action, writes: seq<bool>)
    requires writes == writes0 + LevelTrace(acts)
    ensures writes + PinLevels(a) == writes0 + LevelTrace(acts + [a])
  {
    LevelTraceSnoc(acts, a);
    ConcatAssoc(writes0, LevelTrace(acts), PinLevels(a));
  }

  lemma {:induction false} BeepsAppend(m: nat, n: nat)
    ensures Beeps(m + n) == Beeps(m) + Beeps(n)
  {
    if n > 0 {
      BeepsAppend(m, n - 1);
      assert Beeps(m) + Beeps(n - 1) + [true, false] == Beeps(m) + (Beeps(n - 1) + [true, false]);
    }
  }

  /**
   * While no probe clears the latch, `n` ticks write exactly `3 n` beeps to
   * the pin, on and off in turn, and leave it off.
   */
  lemma {:induction false} PersistentAlertBeeps(inputs: seq<Option<Sample>>)
    requires NeverCleared(inputs)
    ensures LevelTrace(Actions(Alerting, inputs)) == Beeps(BEEPS_PER_PULSE * |inputs|)
    ensures CountOn(LevelTrace(Actions(Alerting, inputs))) == BEEPS_PER_PULSE * |inputs|
  {
    if inputs != [] {
      var init := inputs[..|inputs| - 1];
      PersistentAlertBeeps(init);
      AlertingStepPulses(inputs);
      var n := BEEPS_PER_PULSE * |init|;
      assert BEEPS_PER_PULSE * |inputs| == n + BEEPS_PER_PULSE;
      calc {
        LevelTrace(Actions(Alerting, inputs));
        LevelTrace(Actions(Alerting, init) + [Pulse]);
        { LevelTraceSnoc(Actions(Alerting, init), Pulse); }
        Beeps(n) + Beeps(BEEPS_PER_PULSE);
        { BeepsAppend(n, BEEPS_PER_PULSE); }
        Beeps(n + BEEPS_PER_PULSE);
      }
    }
    BeepsSwitchOnOncePerBeep(BEEPS_PER_PULSE * |inputs|);
  }

  /** The last of a run of inputs that never clear the latch is one more pulse. */
  lemma AlertingStepPulses(inputs: seq<Option<Sample>>)
    requires inputs != [] && NeverCleared(inputs)
    ensures NeverCleared(inputs[..|inputs| - 1])
    ensures Actions(Alerting, inputs) == Actions(Alerting, inputs[..|inputs| - 1]) + [Pulse]
  {
    var init := inputs[..|inputs| - 1];
    var x := inputs[|inputs| - 1];
    assert inputs == init + [x];
    assert NeverCleared(init) by {
      forall i | 0 <= i < |init| ensures init[i].None? || IsAlert(init[i].value) {
        assert init[i] == inputs[i];
      }
    }
    LatchPersists(init);
    RunSnoc(Alerting, init, x);
    assert x.None? || IsAlert(x.value) by { assert x == inputs[|inputs| - 1]; }
    assert Step(Run(Alerting, init), x).action == Pulse;
  }

  class Buzzer {
    /** The level of the buzzer pin. */
    var on: bool
    /** Every level written to the pin, in order. */
    var writes: seq<bool>
    var mode: Mode

    /** Between ticks the pin holds the last level written, and that level is off. */
    ghost predicate Valid()
      reads this
    {
      writes != [] && writes[|writes| - 1] == on && !on
    }

    /** `init_buzzer`: the pin is driven low. */
    constructor ()
      ensures Valid() && mode == Idle && writes == [false]
    {
      on := false;
      writes := [false];
      mode := Idle;
    }

    method Put(level: bool)
      modifies this`on, this`writes
      ensures on == level && writes == old(writes) + [level]
    {
      on := level;
      writes := writes + [level];
    }

    /**
     * `beep`: `times` beeps, each on then off; the alert loop writes the same
     * three beeps out inline.
     */
    method Beep(times: uint8)
      modifies this`on, this`writes
      ensures writes == old(writes) + Beeps(times)
      ensures times > 0 ==> !on
      ensures times == 0 ==> on == old(on)
    {
      for i := 0 to times
        invariant writes == old(writes) + Beeps(i)
        invariant i > 0 ==> !on
        invariant i == 0 ==> on == old(on)
      {
        Put(true);
        Put(false);
      }
    }

    /**
     * One tick: while idle, the blocking receive and what follows it; while
     * alerting, the probe and what follows it.
     */
    method Tick(q: SampleQueue)
      requires Valid() && q.Valid()
      modifies this, q
      ensures Valid() && q.Valid()
      ensures q.items == Rest(old(q.items))
      ensures mode == Step(old(mode), Head(old(q.items))).next
      ensures writes == old(writes) + PinLevels(Step(old(mode), Head(old(q.items))).action)
    {
      var got := q.TryReceive();
      if mode == Idle {
        if got.Some? {
          if IsAlert(got.value) {
            Beep(BEEPS_PER_PULSE);
            mode := Alerting;
          } else {
            Put(false);
          }
        }
      } else {
        var alert := if got.Some? then IsAlert(got.value) else true;
        if alert {
          Beep(BEEPS_PER_PULSE);
        } else {
          Put(false);
          mode := Idle;
        }
      }
    }

    /** The task loop for `ticks` ticks on a queue that nobody sends to meanwhile. */
    method Serve(q: SampleQueue, ticks: nat)
      requires Valid() && q.Valid()
      modifies this, q
      ensures Valid() && q.Valid()
      ensures q.items == old(q.items)[Min(ticks, |old(q.items)|)..]
      ensures mode == Run(old(mode), Feed(old(q.items), ticks))
      ensures writes == old(writes) + LevelTrace(Actions(old(mode), Feed(old(q.items), ticks)))
    {
      ghost var items0, mode0, writes0 := q.items, mode, writes;
      for i := 0 to ticks
        invariant Valid() && q.Valid()
        invariant q.items == items0[Min(i, |items0|)..]
        invariant mode == Run(mode0, Feed(items0, i))
        invariant writes == writes0 + LevelTrace(Actions(mode0, Feed(items0, i)))
      {
        FeedStep(items0, mode0, i, q.items, mode);
        TraceSnoc(writes0, Actions(mode0, Feed(items0, i)), Step(mode, Head(q.items)).action, writes);
        Tick(q);
      }
    }
  }
}
