/**
 * The shape shared by the deployment loops of pkg/morph/deploy: an
 * iteration looks at the chain and decides to wait for the next block
 * (Continue), to send a transaction and then wait (Submit), or to leave
 * the loop (Return, Fail). A run feeds one observation per block to the
 * iteration until it leaves.
 */
module Loops {
  import opened Neo

  datatype StepOutcome<S, T, C> = StepOutcome(state: S, decision: Decision<T, C>)

  datatype RunOutcome<S, T, C> = RunOutcome(state: S, decisions: seq<Decision<T, C>>)

  /** The loop over a bounded sequence of iterations: it stops at the first Return or Fail. */
  function Run<S, O, T, C>(step: (S, O) -> StepOutcome<S, T, C>, s: S, obs: seq<O>): (r: RunOutcome<S, T, C>)
    ensures |r.decisions| <= |obs|
    ensures |r.decisions| == |obs| || (r.decisions != [] && r.decisions[|r.decisions| - 1].Terminal())
    decreases |obs|
  {
    if obs == [] then RunOutcome(s, [])
    else
      var first := step(s, obs[0]);
      if first.decision.Terminal() then RunOutcome(first.state, [first.decision])
      else
        var rest := Run(step, first.state, obs[1..]);
        RunOutcome(rest.state, [first.decision] + rest.decisions)
  }

  /** A run that does not end at its first iteration goes on with the state that iteration left. */
  lemma RunUnfold<S, O, T, C>(step: (S, O) -> StepOutcome<S, T, C>, s: S, obs: seq<O>)
    requires obs != [] && !step(s, obs[0]).decision.Terminal()
    ensures var first := step(s, obs[0]);
            var ds := Run(step, s, obs).decisions;
            var rest := Run(step, first.state, obs[1..]).decisions;
            |ds| == |rest| + 1 && ds[0] == first.decision &&
            (forall j :: 0 <= j < |rest| ==> ds[j + 1] == rest[j]) &&
            Run(step, s, obs).state == Run(step, first.state, obs[1..]).state
  {
    var rest := Run(step, step(s, obs[0]).state, obs[1..]);
    assert Run(step, s, obs) == RunOutcome(rest.state, [step(s, obs[0]).decision] + rest.decisions);
  }

  /** The run ends only at its last decision: every earlier decision goes on. */
  lemma {:induction false} RunEndsOnlyAtLast<S, O, T, C>(step: (S, O) -> StepOutcome<S, T, C>, s: S, obs: seq<O>)
    ensures var ds := Run(step, s, obs).decisions;
            forall k :: 0 <= k < |ds| - 1 ==> !ds[k].Terminal()
    decreases |obs|
  {
    if obs != [] && !step(s, obs[0]).decision.Terminal() {
      RunEndsOnlyAtLast(step, step(s, obs[0]).state, obs[1..]);
      RunUnfold(step, s, obs);
    }
  }

  /**
   * The discipline of the transaction window: an iteration submits only when
   * the window its state records is closed at the observed height, leaves the
   * window alone when it does not submit, and after a submission whose
   * transaction was accepted with valid-until block v > 0 records v.
   */
  ghost predicate GuardsWindow<S(!new), O(!new), T, C>(step: (S, O) -> StepOutcome<S, T, C>, window: S -> u32, height: O -> u32, accepted: O -> u32)
  {
    forall s, o ::
      && (step(s, o).decision.Submit? ==> !ValidityWindowOpen(window(s), height(o)))
      && (!step(s, o).decision.Submit? ==> window(step(s, o).state) == window(s))
      && (step(s, o).decision.Submit? && accepted(o) > 0 ==> window(step(s, o).state) == accepted(o))
  }

  /** From a state whose window is v > 0, the first submission happens at a height above v. */
  lemma {:induction false} FirstSubmitAfterWindow<S(!new), O(!new), T, C>(
      step: (S, O) -> StepOutcome<S, T, C>, window: S -> u32, height: O -> u32, accepted: O -> u32,
      s: S, obs: seq<O>, k: nat)
    requires GuardsWindow(step, window, height, accepted)
    requires window(s) > 0
    requires k < |Run(step, s, obs).decisions| && Run(step, s, obs).decisions[k].Submit?
    requires forall j :: 0 <= j < k ==> !Run(step, s, obs).decisions[j].Submit?
    ensures k < |obs| && height(obs[k]) > window(s)
    decreases k
  {
    if k > 0 {
      RunUnfold(step, s, obs);
      FirstSubmitAfterWindow(step, window, height, accepted, step(s, obs[0]).state, obs[1..], k - 1);
    }
  }

  /** The window after a submission accepted with valid-until block v > 0 is v. */
  lemma AcceptedSubmitRecordsWindow<S(!new), O(!new), T, C>(
      step: (S, O) -> StepOutcome<S, T, C>, window: S -> u32, height: O -> u32, accepted: O -> u32, s: S, o: O)
    requires GuardsWindow(step, window, height, accepted)
    requires step(s, o).decision.Submit? && accepted(o) > 0
    ensures window(step(s, o).state) == accepted(o)
  {
  }

  /** Iterations without a submission, seen from the run that starts one iteration later. */
  lemma ShiftQuietStretch<S, O, T, C>(step: (S, O) -> StepOutcome<S, T, C>, s: S, obs: seq<O>, lo: int, hi: int)
    requires obs != [] && !step(s, obs[0]).decision.Terminal()
    requires 0 <= lo < hi <= |Run(step, s, obs).decisions|
    requires forall j :: lo < j < hi ==> !Run(step, s, obs).decisions[j].Submit?
    ensures forall j :: lo - 1 < j < hi - 1 ==> !Run(step, step(s, obs[0]).state, obs[1..]).decisions[j].Submit?
  {
    RunUnfold(step, s, obs);
  }

  /** The case of the next lemma where the accepted submission is the run's first iteration. */
  lemma NoResubmitAfterFirst<S(!new), O(!new), T, C>(
      step: (S, O) -> StepOutcome<S, T, C>, window: S -> u32, height: O -> u32, accepted: O -> u32,
      s: S, obs: seq<O>, k2: nat)
    requires GuardsWindow(step, window, height, accepted)
    requires var ds := Run(step, s, obs).decisions;
             0 < k2 < |ds| && ds[0].Submit? && ds[k2].Submit? &&
             (forall j :: 0 < j < k2 ==> !ds[j].Submit?)
    requires accepted(obs[0]) > 0
    ensures height(obs[k2]) > accepted(obs[0])
  {
    var next := step(s, obs[0]).state;
    ShiftQuietStretch(step, s, obs, 0, k2);
    AcceptedSubmitRecordsWindow(step, window, height, accepted, s, obs[0]);
    FirstSubmitAfterWindow(step, window, height, accepted, next, obs[1..], k2 - 1);
    assert obs[1..][k2 - 1] == obs[k2];
  }

  /**
   * No submission inside an open window: when the submission of iteration k1
   * was accepted with valid-until block v > 0, the next submission, at
   * iteration k2, happens at a height above v.
   */
  lemma {:induction false} NoResubmitInsideWindow<S(!new), O(!new), T, C>(
      step: (S, O) -> StepOutcome<S, T, C>, window: S -> u32, height: O -> u32, accepted: O -> u32,
      s: S, obs: seq<O>, k1: nat, k2: nat)
    requires GuardsWindow(step, window, height, accepted)
    requires var ds := Run(step, s, obs).decisions;
             k1 < k2 < |ds| && ds[k1].Submit? && ds[k2].Submit? &&
             (forall j :: k1 < j < k2 ==> !ds[j].Submit?)
    requires accepted(obs[k1]) > 0
    ensures height(obs[k2]) > accepted(obs[k1])
    decreases k1
  {
    if k1 == 0 {
      NoResubmitAfterFirst(step, window, height, accepted, s, obs, k2);
    } else {
      ShiftQuietStretch(step, s, obs, k1, k2);
      NoResubmitInsideWindow(step, window, height, accepted, step(s, obs[0]).state, obs[1..], k1 - 1, k2 - 1);
      assert obs[1..][k1 - 1] == obs[k1] && obs[1..][k2 - 1] == obs[k2];
    }
  }
}
