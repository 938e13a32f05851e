/** The low-battery output monitor of the robot's host computer: every five
    seconds it samples the power board's low-battery pin (HIGH means low
    battery) and schedules or cancels a system shutdown. One iteration of
    its loop is a step over (`lbo_count`, `shutdown_pending`); the sleep and
    the shell commands are modelled as the emitted action. */
module LboMonitor {
  import opened Common

  datatype Monitor = Monitor(count: int, pending: bool)

  /** `shutdown -h +1` and `shutdown -c`. */
  datatype Action = Shutdown | Cancel

  datatype Step = Step(monitor: Monitor, action: Option<Action>)

  /** The values the script starts with. */
  const Initial: Monitor := Monitor(0, false)

  /** One loop iteration with the sampled level `high`. */
  function Next(m: Monitor, high: bool): Step {
    if !m.pending then
      var count := if high then m.count + 1 else 0;
      if count > 2 then Step(Monitor(0, true), Some(Shutdown))
      else Step(Monitor(count, false), None)
    else
      var count := if !high then m.count + 1 else m.count;
      if count > 2 then Step(Monitor(0, false), Some(Cancel))
      else Step(Monitor(count, true), None)
  }

  predicate Valid(m: Monitor) {
    0 <= m.count <= 2
  }

  /** The step in detail: while idle a HIGH sample counts up and a LOW one
      resets; while a shutdown is pending a LOW sample counts up and a HIGH
      one leaves the count alone; the third count issues the action, flips
      the mode and resets the count. The count stays within 0..2. */
  lemma {:induction false} NextBehaviour(m: Monitor, high: bool)
    requires Valid(m)
    ensures Valid(Next(m, high).monitor)
    ensures !m.pending && !high ==> Next(m, high) == Step(Monitor(0, false), None)
    ensures !m.pending && high ==>
      Next(m, high) == if m.count == 2 then Step(Monitor(0, true), Some(Shutdown))
                       else Step(Monitor(m.count + 1, false), None)
    ensures m.pending && high ==> Next(m, high) == Step(m, None)
    ensures m.pending && !high ==>
      Next(m, high) == if m.count == 2 then Step(Monitor(0, false), Some(Cancel))
                       else Step(Monitor(m.count + 1, true), None)
    ensures Next(m, high).action == Some(Shutdown) ==> !m.pending && Next(m, high).monitor.pending
    ensures Next(m, high).action == Some(Cancel) ==> m.pending && !Next(m, high).monitor.pending
    ensures Next(m, high).action == None ==> Next(m, high).monitor.pending == m.pending
  {
  }

  /** Runs the loop over a sequence of samples; returns the final state and
      the actions issued, in order. */
  function Run(m: Monitor, samples: seq<bool>): (Monitor, seq<Action>)
    decreases |samples|
  {
    if |samples| == 0 then (m, [])
    else
      var s := Next(m, samples[0]);
      var (m', acts) := Run(s.monitor, samples[1..]);
      (m', ActionOf(s) + acts)
  }

  /** The action a step issues, as a sequence of zero or one actions. */
  function ActionOf(s: Step): seq<Action> {
    if s.action.Some? then [s.action.value] else []
  }

  /** The actions alternate, shutdown first. */
  predicate Alternates(acts: seq<Action>, first: Action) {
    forall i :: 0 <= i < |acts| ==> acts[i] == (if i % 2 == 0 then first else Other(first))
  }

  function Other(a: Action): Action {
    if a == Shutdown then Cancel else Shutdown
  }

  /** From any valid state the issued actions alternate, starting with the
      one the current mode allows, and the final mode records whether the
      last action was a shutdown. */
  lemma {:induction false} RunAlternates(m: Monitor, samples: seq<bool>)
    requires Valid(m)
    ensures var (m', acts) := Run(m, samples);
            && Valid(m')
            && Alternates(acts, if m.pending then Cancel else Shutdown)
            && m'.pending == (if |acts| % 2 == 0 then m.pending else !m.pending)
    decreases |samples|
  {
    if |samples| > 0 {
      var s := Next(m, samples[0]);
      NextBehaviour(m, samples[0]);
      RunAlternates(s.monitor, samples[1..]);
      var (m', rest) := Run(s.monitor, samples[1..]);
      var first := if m.pending then Cancel else Shutdown;
      if s.action.Some? {
        var acts := [s.action.value] + rest;
        assert s.action.value == first;
        assert forall i :: 1 <= i < |acts| ==> acts[i] == rest[i - 1];
      }
    }
  }

  /** Started fresh, the monitor's whole output alternates shutdown, cancel,
      shutdown, ... */
  lemma {:induction false} ActionsAlternateFromStart(samples: seq<bool>)
    ensures Alternates(Run(Initial, samples).1, Shutdown)
  {
    RunAlternates(Initial, samples);
  }

  /** Three HIGH samples in a row from a fresh state schedule the shutdown,
      and two do not. */
  lemma {:induction false} ThreeHighSamplesShutDown()
    ensures Run(Initial, [true, true, true]) == (Monitor(0, true), [Shutdown])
    ensures Run(Initial, [true, true]) == (Monitor(2, false), [])
  {
    assert Run(Monitor(2, false), [true]).1 == [Shutdown];
    assert Run(Monitor(1, false), [true, true]).1 == [Shutdown];
    assert Run(Initial, [true, true, true]).1 == [Shutdown];
    assert Run(Monitor(1, false), [true]).1 == [];
    assert Run(Initial, [true, true]).1 == [];
  }

  /** The length of the run of HIGH samples at the end of `s`. */
  function TrailingHighs(s: seq<bool>): nat
    decreases |s|
  {
    if |s| == 0 || !s[|s| - 1] then 0 else TrailingHighs(s[..|s| - 1]) + 1
  }

  /** Started fresh, as long as no prefix of the samples ends in three HIGH
      samples, nothing is issued and the count is the length of the trailing
      run of HIGH samples. */
  lemma {:induction false} IdleCountsTrailingHighs(samples: seq<bool>)
    requires forall i :: 0 <= i <= |samples| ==> TrailingHighs(samples[..i]) < 3
    ensures Run(Initial, samples) == (Monitor(TrailingHighs(samples), false), [])
    decreases |samples|
  {
    var n := |samples|;
    assert samples[..n] == samples;
    if n > 0 {
      var front := samples[..n - 1];
      forall i | 0 <= i <= |front|
        ensures TrailingHighs(front[..i]) < 3
      {
        assert front[..i] == samples[..i];
      }
      IdleCountsTrailingHighs(front);
      RunSnoc(Initial, front, samples[n - 1]);
      assert samples == front + [samples[n - 1]];
    }
  }

  /** ... and the shutdown comes with the first sample that makes that run
      three long. */
  lemma {:induction false} ShutdownOnThirdHigh(samples: seq<bool>)
    requires forall i :: 0 <= i <= |samples| ==> TrailingHighs(samples[..i]) < 3
    requires TrailingHighs(samples + [true]) == 3
    ensures Run(Initial, samples + [true]).0 == Monitor(0, true)
    ensures Run(Initial, samples + [true]).1 == [Shutdown]
  {
    var n := |samples|;
    assert TrailingHighs(samples[..n]) < 3;
    assert samples[..n] == samples;
    IdleCountsTrailingHighs(samples);
    var all := samples + [true];
    assert all[..|all| - 1] == samples;
    assert TrailingHighs(samples) == 2;
    RunSnoc(Initial, samples, true);
    var step := Next(Monitor(2, false), true);
    assert step == Step(Monitor(0, true), Some(Shutdown));
    assert ActionOf(step) == [Shutdown];
    assert Run(Initial, all).0 == Monitor(0, true);
    assert [] + [Shutdown] == [Shutdown];
  }

  /** Running over one more sample is one more step. */
  lemma {:induction false} RunSnoc(m: Monitor, samples: seq<bool>, x: bool)
    ensures Run(m, samples + [x]).0 == Next(Run(m, samples).0, x).monitor
    ensures Run(m, samples + [x]).1 == Run(m, samples).1 + ActionOf(Next(Run(m, samples).0, x))
    decreases |samples|
  {
    if |samples| == 0 {
      assert samples + [x] == [x];
      assert Run(m, [x]).1 == ActionOf(Next(m, x)) + [];
    } else {
      var s0 := Next(m, samples[0]);
      var pre := ActionOf(s0);
      assert (samples + [x])[0] == samples[0];
      assert (samples + [x])[1..] == samples[1..] + [x];
      RunSnoc(s0.monitor, samples[1..], x);
      var (m1, rest) := Run(s0.monitor, samples[1..]);
      var last := ActionOf(Next(m1, x));
      assert Run(m, samples).1 == pre + rest;
      assert Run(m, samples + [x]).1 == pre + (rest + last);
      assert pre + (rest + last) == (pre + rest) + last;
    }
  }

  /** The script's header promises that three LOW samples in a row cancel a
      pending shutdown; the loop counts LOW samples without resetting on a
      HIGH one, so three LOW samples with HIGH samples between them cancel
      too. */
  lemma {:induction false} ScatteredLowSamplesCancel()
    ensures Run(Monitor(0, true), [false, true, false, true, true, false]) == (Monitor(0, false), [Cancel])
  {
    assert Run(Monitor(2, true), [false]).1 == [Cancel];
    assert Run(Monitor(2, true), [true, false]).1 == [Cancel];
    assert Run(Monitor(2, true), [true, true, false]).1 == [Cancel];
    assert Run(Monitor(1, true), [false, true, true, false]).1 == [Cancel];
    assert Run(Monitor(1, true), [true, false, true, true, false]).1 == [Cancel];
    assert Run(Monitor(0, true), [false, true, false, true, true, false]).1 == [Cancel];
  }
}
