/**
 * updateNNSContract (pkg/morph/deploy/nns.go): the loop that brings the
 * on-chain NNS contract up to the local version through a transaction the
 * committee signs via the Notary service. One iteration of the Go loop is
 * one Step; the block-paced repetition is a sequence of observations.
 */
module NnsUpdate {
  import opened Wrappers
  import opened GoErrors
  import opened Neo
  import opened Util
  import opened Loops

  /** contractVersion; its structure and comparison live in a file that is not part of this model. */
  datatype ContractVersion = ContractVersion(repr: Bytes)

  type ExtraArgs = seq<Bytes>

  const MethodUpdate: string := "update"

  /** A call of the contract's 'update' method: the executable, the manifest and the version-specific arguments. */
  datatype UpdateCall = UpdateCall(contract: Uint160, methodName: string, nef: Bytes, manifest: Manifest, extraArgs: ExtraArgs)

  /** The parameters of updateNNSContractPrm and the values prepared before the loop. */
  datatype UpdatePrm = UpdatePrm(
    crypto: Crypto,
    localAccount: Uint160,                            // prm.localAcc.ScriptHash()
    localNEF: Nef,
    localNEFBytes: Bytes,                             // bLocalNEF
    manifestBeforeLoop: Manifest,                     // the manifest jLocalManifest encodes
    committeeGroupKey: PrivateKey,
    localVersion: ContractVersion,
    cmp: (ContractVersion, ContractVersion) -> int,   // contractVersion.cmp
    versionText: ContractVersion -> string,           // contractVersion.String
    errAlreadyUpdated: string,                        // common.ErrAlreadyUpdated
    isErrNotEnoughGAS: Error -> bool,
    isErrNotaryDepositExpires: Error -> bool)

  /** What one iteration observes: each answer is used only if the iteration gets that far. */
  datatype UpdateObservation = UpdateObservation(
    contextErr: Option<Error>,                  // ctx.Err() at the top of the iteration
    chain: Blockchain,
    versionOnChain: Result<ContractVersion, Error>,
    extraUpdateArgs: Result<ExtraArgs, Error>,  // buildVersionedExtraUpdateArgs
    probe: Result<Tx, Error>,                   // committeeActor.MakeCall
    currentHeight: u32,                         // monitor.currentHeight()
    notarize: Result<u32, Error>)               // committeeActor.Notarize: the valid-until block

  /**
   * The loop-carried variables, and the calls of onNotaryDepositDeficiency
   * made so far: the callback is an effect outside the loop, kept here as
   * the list of the lackOfGAS values it was given, in order.
   */
  datatype UpdateState = UpdateState(updateTxValidUntilBlock: u32, localManifest: Manifest, deficiencyReports: seq<bool>)

  type UpdateOutcome = StepOutcome<UpdateState, (), UpdateCall>

  const ErrMissingNNS: Error := Leaf(Anonymous, "missing required NNS contract on the chain")

  function SameVersionError(prm: UpdatePrm, versionOnChain: ContractVersion): Error
  {
    Leaf(Anonymous, "local and on-chain contracts have different NEF checksums but same version '" + prm.versionText(versionOnChain) + "'")
  }

  /**
   * The failures before the loop, each fatal and checked in this order:
   * encoding the NEF, encoding the manifest, making the committee actor,
   * reading the local version.
   */
  function UpdatePreludeError(nefBytes: Option<Error>, manifestJSON: Option<Error>, committeeActor: Option<Error>, localVersion: Option<Error>)
    : (r: Option<Error>)
    ensures r.None? <==> nefBytes.None? && manifestJSON.None? && committeeActor.None? && localVersion.None?
    ensures nefBytes.Some? ==> r.value.Wrapped? && r.value.cause == nefBytes.value
    ensures nefBytes.None? && manifestJSON.Some? ==> r.value.Wrapped? && r.value.cause == manifestJSON.value
    ensures nefBytes.None? && manifestJSON.None? && committeeActor.Some? ==> r.value.Wrapped? && r.value.cause == committeeActor.value
    ensures nefBytes.None? && manifestJSON.None? && committeeActor.None? && localVersion.Some? ==>
              r.value.Wrapped? && r.value.cause == localVersion.value
  {
    if nefBytes.Some? then Some(Wrap("encode local NEF of the NNS contract into binary", nefBytes.value))
    else if manifestJSON.Some? then Some(Wrap("encode local manifest of the NNS contract into JSON", manifestJSON.value))
    else if committeeActor.Some? then
      Some(Wrap("create Notary service client sending transactions to be signed by the committee", committeeActor.value))
    else if localVersion.Some? then Some(Wrap("read version of the local NNS contract", localVersion.value))
    else None
  }

  /** The update call as nns.go:348-349 builds it: the manifest is the one encoded before the loop. */
  function UpdateCallAsWritten(prm: UpdatePrm, contract: Uint160, extraArgs: ExtraArgs): UpdateCall
  {
    UpdateCall(contract, MethodUpdate, prm.localNEFBytes, prm.manifestBeforeLoop, extraArgs)
  }

  /** The update call with the manifest just signed by the committee group, as the function's comment promises. */
  function UpdateCallSigned(prm: UpdatePrm, contract: Uint160, signed: Manifest, extraArgs: ExtraArgs): UpdateCall
  {
    UpdateCall(contract, MethodUpdate, prm.localNEFBytes, signed, extraArgs)
  }

  /** A failed probe or Notarize: deposit trouble calls onNotaryDepositDeficiency(lackOfGAS), then the loop goes on. */
  function OnSendFailure(prm: UpdatePrm, s: UpdateState, d: Decision<(), UpdateCall>, err: Error): UpdateOutcome
  {
    var lackOfGAS := prm.isErrNotEnoughGAS(err);
    if !lackOfGAS && !prm.isErrNotaryDepositExpires(err) then StepOutcome(s, d)
    else StepOutcome(s.(deficiencyReports := s.deficiencyReports + [lackOfGAS]), d)
  }

  /** One iteration of updateNNSContract, with the corrected update call. */
  function UpdateStep(prm: UpdatePrm, s: UpdateState, o: UpdateObservation): UpdateOutcome
  {
    UpdateIterationBody(prm, s, o, false)
  }

  /** One iteration of updateNNSContract as written: the update call carries jLocalManifest. */
  function UpdateStepAsWritten(prm: UpdatePrm, s: UpdateState, o: UpdateObservation): UpdateOutcome
  {
    UpdateIterationBody(prm, s, o, true)
  }

  /** The body of updateNNSContract's loop; asWritten chooses the manifest the update call carries. */
  function UpdateIterationBody(prm: UpdatePrm, s: UpdateState, o: UpdateObservation, asWritten: bool): UpdateOutcome
  {
    if o.contextErr.Some? then
      StepOutcome(s, Fail(Wrap("wait for NNS contract synchronization", o.contextErr.value)))
    else
      var read := ReadNNSOnChainState(o.chain);
      if read.Failure? then StepOutcome(s, Continue)
      else if read.value.None? then StepOutcome(s, Fail(ErrMissingNNS))
      else
        var st := read.value.value;
        if st.nef.checksum == prm.localNEF.checksum then StepOutcome(s, Return(()))
        else if o.versionOnChain.Failure? then StepOutcome(s, Continue)
        else
          var v := prm.cmp(prm.localVersion, o.versionOnChain.value);
          if v == -1 then StepOutcome(s, Return(()))
          else if v == 0 then StepOutcome(s, Fail(SameVersionError(prm, o.versionOnChain.value)))
          else if o.extraUpdateArgs.Failure? then StepOutcome(s, Continue)
          else UpdateSubmission(prm, s, o, st.hash, o.extraUpdateArgs.value, asWritten)
  }

  /** The part of an iteration after the local version was found ahead: sign, probe, and maybe notarize. */
  function UpdateSubmission(prm: UpdatePrm, s: UpdateState, o: UpdateObservation, contract: Uint160, extraArgs: ExtraArgs,
                            asWritten: bool): UpdateOutcome
  {
    var m := SetGroup(prm.crypto, s.localManifest, prm.localNEF, prm.committeeGroupKey, prm.localAccount);
    var s1 := s.(localManifest := m);
    var call := if asWritten then UpdateCallAsWritten(prm, contract, extraArgs) else UpdateCallSigned(prm, contract, m, extraArgs);
    match o.probe
    case Failure(err) =>
      if IsErrContractAlreadyUpdated(err, prm.errAlreadyUpdated) then StepOutcome(s1, Return(()))
      else OnSendFailure(prm, s1, Continue, err)
    case Success(_) =>
      if ValidityWindowOpen(s1.updateTxValidUntilBlock, o.currentHeight) then StepOutcome(s1, Continue)
      else
        match o.notarize
        case Failure(err) => OnSendFailure(prm, s1, Submit(call), err)
        case Success(vub) => StepOutcome(s1.(updateTxValidUntilBlock := vub), Submit(call))
  }

  /** The loop body as a value, for the generic loop. */
  function UpdateIteration(prm: UpdatePrm): (UpdateState, UpdateObservation) -> UpdateOutcome
  {
    (s, o) => UpdateStep(prm, s, o)
  }

  /** The loop over a bounded sequence of iterations: it stops at the first Return or Fail. */
  function UpdateRun(prm: UpdatePrm, s: UpdateState, obs: seq<UpdateObservation>): RunOutcome<UpdateState, (), UpdateCall>
  {
    Run(UpdateIteration(prm), s, obs)
  }

  /** updateNNSContract's local variables, the manifest it signs in place, and the deficiency callback's calls. */
  class UpdateNNSContract {
    const prm: UpdatePrm
    var updateTxValidUntilBlock: u32
    var localManifest: Manifest
    var deficiencyReports: seq<bool>

    function State(): UpdateState
      reads this
    {
      UpdateState(updateTxValidUntilBlock, localManifest, deficiencyReports)
    }

    /** The loop starts from prm.localManifest, the manifest jLocalManifest encodes. */
    constructor (prm: UpdatePrm)
      ensures this.prm == prm && State() == UpdateState(0, prm.manifestBeforeLoop, [])
    {
      this.prm := prm;
      updateTxValidUntilBlock := 0;
      localManifest := prm.manifestBeforeLoop;
      deficiencyReports := [];
    }

    /** onNotaryDepositDeficiency: the call is recorded. */
    method OnNotaryDepositDeficiency(lackOfGAS: bool)
      modifies this
      ensures State() == old(State()).(deficiencyReports := old(deficiencyReports) + [lackOfGAS])
    {
      deficiencyReports := deficiencyReports + [lackOfGAS];
    }

    /** One iteration of the loop body; Continue and Submit lead to waitForNextBlock. */
    method Step(o: UpdateObservation) returns (d: Decision<(), UpdateCall>)
      modifies this
      ensures StepOutcome(State(), d) == UpdateStep(prm, old(State()), o)
    {
      if o.contextErr.Some? {
        return Fail(Wrap("wait for NNS contract synchronization", o.contextErr.value));
      }

      var nnsOnChainState := ReadNNSOnChainState(o.chain);
      if nnsOnChainState.Failure? {
        return Continue;
      } else if nnsOnChainState.value.None? {
        return Fail(ErrMissingNNS);
      }
      var st := nnsOnChainState.value.value;

      if st.nef.checksum == prm.localNEF.checksum {
        return Return(());
      }

      if o.versionOnChain.Failure? {
        return Continue;
      }
      var versionOnChain := o.versionOnChain.value;

      var v := prm.cmp(prm.localVersion, versionOnChain);
      if v == -1 {
        return Return(());
      } else if v == 0 {
        return Fail(SameVersionError(prm, versionOnChain));
      }

      if o.extraUpdateArgs.Failure? {
        return Continue;
      }

      localManifest := SetGroupInManifest(prm.crypto, localManifest, prm.localNEF, prm.committeeGroupKey, prm.localAccount);
      var call := UpdateCallSigned(prm, st.hash, localManifest, o.extraUpdateArgs.value);

      var err: Error;
      d := Continue;
      if o.probe.Failure? {
        err := o.probe.error;
        if IsErrContractAlreadyUpdated(err, prm.errAlreadyUpdated) {
          return Return(());
        }
      } else {
        if updateTxValidUntilBlock > 0 {
          if o.currentHeight <= updateTxValidUntilBlock {
            return Continue;
          }
        }
        d := Submit(call);
        if o.notarize.Success? {
          updateTxValidUntilBlock := o.notarize.value;
          return;
        }
        err := o.notarize.error;
      }

      var lackOfGAS := prm.isErrNotEnoughGAS(err);
      if !lackOfGAS {
        if !prm.isErrNotaryDepositExpires(err) {
          return;
        }
      }
      OnNotaryDepositDeficiency(lackOfGAS);
    }

    /** The loop, fed one observation per iteration until it returns or the observations run out. */
    method Run(obs: seq<UpdateObservation>) returns (decisions: seq<Decision<(), UpdateCall>>)
      modifies this
      ensures RunOutcome(State(), decisions) == UpdateRun(prm, old(State()), obs)
    {
      decisions := [];
      var i := 0;
      while i < |obs|
        invariant 0 <= i <= |obs|
        invariant UpdateRun(prm, old(State()), obs).decisions == decisions + UpdateRun(prm, State(), obs[i..]).decisions
        invariant UpdateRun(prm, old(State()), obs).state == UpdateRun(prm, State(), obs[i..]).state
      {
        assert obs[i..][1..] == obs[i + 1..];
        var d := Step(obs[i]);
        decisions := decisions + [d];
        if d.Terminal() {
          return;
        }
        i := i + 1;
      }
    }
  }

  // -----------------------------------------------------------------------
  // properties of one iteration
  // -----------------------------------------------------------------------

  /** The on-chain contract the iteration reads, when it reads one. */
  predicate Found(o: UpdateObservation)
  {
    o.contextErr.None? && o.chain.contractStateByID(NnsContractID).Success?
  }

  function FoundState(o: UpdateObservation): ContractState
    requires Found(o)
  {
    o.chain.contractStateByID(NnsContractID).value
  }

  /** The on-chain contract differs from the local one and the local version is ahead. */
  predicate NeedsUpdate(prm: UpdatePrm, o: UpdateObservation)
  {
    && Found(o) && FoundState(o).nef.checksum != prm.localNEF.checksum
    && o.versionOnChain.Success? && prm.cmp(prm.localVersion, o.versionOnChain.value) !in {-1, 0}
  }

  /**
   * The decisions before any transaction: a missing contract is fatal,
   * equal checksums need nothing, a local version below the on-chain one
   * needs nothing, and equal versions with different checksums are fatal.
   * None of them touches the state or calls the deficiency callback.
   */
  lemma UpdateDecidesBeforeSending(prm: UpdatePrm, s: UpdateState, o: UpdateObservation)
    requires o.contextErr.None?
    ensures var r := UpdateStep(prm, s, o);
            && (o.chain.contractStateByID(NnsContractID).Failure? &&
                Is(o.chain.contractStateByID(NnsContractID).error, UnknownContract) ==>
                  r == StepOutcome(s, Fail(ErrMissingNNS)))
            && (o.chain.contractStateByID(NnsContractID).Failure? &&
                !Is(o.chain.contractStateByID(NnsContractID).error, UnknownContract) ==>
                  r == StepOutcome(s, Continue))
            && (Found(o) && FoundState(o).nef.checksum == prm.localNEF.checksum ==>
                  r == StepOutcome(s, Return(())))
            && (Found(o) && FoundState(o).nef.checksum != prm.localNEF.checksum && o.versionOnChain.Success? ==>
                  (prm.cmp(prm.localVersion, o.versionOnChain.value) == -1 ==> r == StepOutcome(s, Return(()))) &&
                  (prm.cmp(prm.localVersion, o.versionOnChain.value) == 0 ==>
                     r == StepOutcome(s, Fail(SameVersionError(prm, o.versionOnChain.value)))))
  {
  }

  /** A done context ends the loop with an error wrapping the context's error, before anything is read. */
  lemma UpdateCancellation(prm: UpdatePrm, s: UpdateState, o: UpdateObservation)
    requires o.contextErr.Some?
    ensures UpdateStep(prm, s, o) == StepOutcome(s, Fail(Wrap("wait for NNS contract synchronization", o.contextErr.value)))
    ensures UpdateStep(prm, s, o).decision.error.cause == o.contextErr.value
  {
  }

  /**
   * The loop leaves with success exactly when the checksums are equal, the
   * local version is behind, or the probe says the contract is already
   * updated; equal versions with different checksums are never a success.
   */
  lemma UpdateSucceedsOnlyWhenNothingToDo(prm: UpdatePrm, s: UpdateState, o: UpdateObservation)
    ensures UpdateStep(prm, s, o).decision.Return? <==>
              Found(o) &&
              (|| FoundState(o).nef.checksum == prm.localNEF.checksum
               || (o.versionOnChain.Success? && prm.cmp(prm.localVersion, o.versionOnChain.value) == -1)
               || (NeedsUpdate(prm, o) && o.extraUpdateArgs.Success? && o.probe.Failure? &&
                   IsErrContractAlreadyUpdated(o.probe.error, prm.errAlreadyUpdated)))
  {
  }

  /**
   * Notarize is called only after a successful probe, with the local
   * version ahead, and when no earlier update transaction may still be
   * accepted. The window becomes the returned valid-until block on success
   * and is kept as it was on failure, unlike in initNNSContract.
   */
  lemma UpdateNotarizeGuard(prm: UpdatePrm, s: UpdateState, o: UpdateObservation)
    ensures var r := UpdateStep(prm, s, o);
            (r.decision.Submit? ==>
               && NeedsUpdate(prm, o) && o.extraUpdateArgs.Success? && o.probe.Success?
               && !ValidityWindowOpen(s.updateTxValidUntilBlock, o.currentHeight)
               && r.state.updateTxValidUntilBlock ==
                    (if o.notarize.Success? then o.notarize.value else s.updateTxValidUntilBlock))
            && (!r.decision.Submit? ==> r.state.updateTxValidUntilBlock == s.updateTxValidUntilBlock)
  {
  }

  /** Conversely, a successful probe with the window closed always leads to Notarize. */
  lemma UpdateNotarizesWhenWindowClosed(prm: UpdatePrm, s: UpdateState, o: UpdateObservation)
    requires NeedsUpdate(prm, o) && o.extraUpdateArgs.Success? && o.probe.Success?
    requires !ValidityWindowOpen(s.updateTxValidUntilBlock, o.currentHeight)
    ensures UpdateStep(prm, s, o).decision.Submit?
  {
  }

  /** The error of the send attempt: the probe's, or Notarize's after a successful probe. */
  function SendError(o: UpdateObservation): Option<Error>
  {
    if o.probe.Failure? then Some(o.probe.error)
    else if o.notarize.Failure? then Some(o.notarize.error)
    else None
  }

  /**
   * onNotaryDepositDeficiency is called at most once per iteration, and
   * exactly when the failed probe (other than "already updated") or the
   * failed Notarize reports lack of GAS or an expiring deposit; it is given
   * whether GAS was lacking, and the loop goes on afterwards.
   */
  lemma UpdateDepositDeficiency(prm: UpdatePrm, s: UpdateState, o: UpdateObservation)
    ensures var r := UpdateStep(prm, s, o).state.deficiencyReports;
            && (r == s.deficiencyReports ||
                (SendError(o).Some? && r == s.deficiencyReports + [prm.isErrNotEnoughGAS(SendError(o).value)]))
            && (r != s.deficiencyReports <==>
                  && NeedsUpdate(prm, o) && o.extraUpdateArgs.Success? && SendError(o).Some?
                  && (o.probe.Failure? ==> !IsErrContractAlreadyUpdated(o.probe.error, prm.errAlreadyUpdated))
                  && (o.probe.Success? ==> !ValidityWindowOpen(s.updateTxValidUntilBlock, o.currentHeight))
                  && (prm.isErrNotEnoughGAS(SendError(o).value) || prm.isErrNotaryDepositExpires(SendError(o).value)))
            && (r != s.deficiencyReports ==> !UpdateStep(prm, s, o).decision.Terminal())
  {
  }

  /** The manifest carries the committee group's signature over the address of the contract the local account deploys. */
  predicate SignedByCommitteeGroup(prm: UpdatePrm, m: Manifest)
  {
    var k := GroupIndex(m.groups, prm.crypto.publicKey(prm.committeeGroupKey));
    k >= 0 &&
    m.groups[k].signature ==
      prm.crypto.sign(prm.committeeGroupKey, prm.crypto.createContractHash(prm.localAccount, prm.localNEF.checksum, m.name))
  }

  /** Every update transaction carries the manifest signed by the committee group, which is the manifest the loop keeps. */
  lemma UpdateSubmitsSignedManifest(prm: UpdatePrm, s: UpdateState, o: UpdateObservation)
    ensures var r := UpdateStep(prm, s, o);
            r.decision.Submit? ==>
              && r.decision.call.manifest == r.state.localManifest
              && SignedByCommitteeGroup(prm, r.decision.call.manifest)
              && r.decision.call.contract == FoundState(o).hash
              && r.decision.call.methodName == MethodUpdate
              && r.decision.call.nef == prm.localNEFBytes
              && r.decision.call.extraArgs == o.extraUpdateArgs.value
  {
    SetGroupIdempotent(prm.crypto, s.localManifest, prm.localNEF, prm.committeeGroupKey, prm.localAccount);
  }

  /**
   * As written, an iteration that sends the update carries the manifest
   * encoded before the loop: when that manifest has no entry for the
   * committee key, the update goes out without the committee group,
   * although the iteration has just signed the copy the loop keeps.
   */
  lemma UpdateAsWrittenDropsCommitteeGroup(prm: UpdatePrm, s: UpdateState, o: UpdateObservation)
    requires GroupIndex(prm.manifestBeforeLoop.groups, prm.crypto.publicKey(prm.committeeGroupKey)) < 0
    ensures var r := UpdateStepAsWritten(prm, s, o);
            r.decision.Submit? ==>
              && r.decision.call.manifest == prm.manifestBeforeLoop
              && !SignedByCommitteeGroup(prm, r.decision.call.manifest)
              && SignedByCommitteeGroup(prm, r.state.localManifest)
  {
    SetGroupIdempotent(prm.crypto, s.localManifest, prm.localNEF, prm.committeeGroupKey, prm.localAccount);
  }

  /** The as-written and the corrected iteration differ only in the manifest the update call carries. */
  lemma UpdateAsWrittenDiffersOnlyInManifest(prm: UpdatePrm, s: UpdateState, o: UpdateObservation)
    ensures var w := UpdateStepAsWritten(prm, s, o);
            var c := UpdateStep(prm, s, o);
            && w.state == c.state
            && w.decision.Submit? == c.decision.Submit?
            && (!w.decision.Submit? ==> w.decision == c.decision)
            && (w.decision.Submit? ==> w.decision.call == c.decision.call.(manifest := prm.manifestBeforeLoop))
  {
  }

  // -----------------------------------------------------------------------
  // properties of the loop
  // -----------------------------------------------------------------------

  /** The valid-until block of an accepted Notarize, 0 for a failed one. */
  function UpdateAccepted(o: UpdateObservation): u32
  {
    if o.notarize.Success? then o.notarize.value else 0
  }

  /** The Notarize guard in the terms of the generic loop: the window is updateTxValidUntilBlock. */
  lemma UpdateGuardsWindow(prm: UpdatePrm)
    ensures GuardsWindow(UpdateIteration(prm), (s: UpdateState) => s.updateTxValidUntilBlock,
                         (o: UpdateObservation) => o.currentHeight, UpdateAccepted)
  {
    forall s: UpdateState, o: UpdateObservation {
      UpdateNotarizeGuard(prm, s, o);
    }
  }

  /**
   * No duplicate update: when the Notarize of iteration k1 was accepted with
   * valid-until block v > 0, the next Notarize, at iteration k2, happens at a
   * height above v.
   */
  lemma UpdateNoDuplicateNotarize(prm: UpdatePrm, s: UpdateState, obs: seq<UpdateObservation>, k1: nat, k2: nat)
    requires var ds := UpdateRun(prm, s, obs).decisions;
             k1 < k2 < |ds| && ds[k1].Submit? && ds[k2].Submit? &&
             (forall j :: k1 < j < k2 ==> !ds[j].Submit?)
    requires obs[k1].notarize.Success? && obs[k1].notarize.value > 0
    ensures obs[k2].currentHeight > obs[k1].notarize.value
  {
    UpdateGuardsWindow(prm);
    NoResubmitInsideWindow(UpdateIteration(prm), (s: UpdateState) => s.updateTxValidUntilBlock,
                           (o: UpdateObservation) => o.currentHeight, UpdateAccepted, s, obs, k1, k2);
  }

  /** An iteration in which everything up to Notarize succeeds and Notarize fails for lack of GAS. */
  predicate LacksGAS(prm: UpdatePrm, o: UpdateObservation)
  {
    && NeedsUpdate(prm, o) && o.extraUpdateArgs.Success? && o.probe.Success?
    && o.notarize.Failure? && prm.isErrNotEnoughGAS(o.notarize.error)
  }

  /**
   * The deficiency callback fires on every iteration that lacks GAS, not
   * once per episode: n such iterations in a row give n Notarize attempts
   * and n calls of the callback, each with lackOfGAS = true.
   */
  lemma {:induction false} UpdateCallbackOnEveryDeficiency(prm: UpdatePrm, s: UpdateState, obs: seq<UpdateObservation>)
    requires s.updateTxValidUntilBlock == 0
    requires forall k :: 0 <= k < |obs| ==> LacksGAS(prm, obs[k])
    ensures var r := UpdateRun(prm, s, obs);
            && |r.decisions| == |obs|
            && (forall k :: 0 <= k < |obs| ==> r.decisions[k].Submit?)
            && r.state.updateTxValidUntilBlock == 0
            && r.state.deficiencyReports == s.deficiencyReports + seq(|obs|, _ => true)
    decreases |obs|
  {
    if obs != [] {
      var first := UpdateStep(prm, s, obs[0]);
      assert first.decision.Submit? && first.state.updateTxValidUntilBlock == 0;
      assert first.state.deficiencyReports == s.deficiencyReports + [true];
      UpdateCallbackOnEveryDeficiency(prm, first.state, obs[1..]);
      RunUnfold(UpdateIteration(prm), s, obs);
      assert [true] + seq(|obs| - 1, _ => true) == seq(|obs|, _ => true);
    }
  }

  /** With equal checksums the loop ends at its first iteration with success, sends nothing and keeps its state. */
  lemma UpdateSameChecksumSendsNothing(prm: UpdatePrm, s: UpdateState, obs: seq<UpdateObservation>)
    requires obs != [] && Found(obs[0]) && FoundState(obs[0]).nef.checksum == prm.localNEF.checksum
    ensures UpdateRun(prm, s, obs) == RunOutcome(s, [Return(())])
  {
  }

  /**
   * A version ahead that the chain reports as already updated: the loop
   * returns success at once without Notarize and without the callback.
   */
  lemma UpdateAlreadyUpdatedSendsNothing(prm: UpdatePrm, s: UpdateState, obs: seq<UpdateObservation>)
    requires obs != [] && NeedsUpdate(prm, obs[0]) && obs[0].extraUpdateArgs.Success? && obs[0].probe.Failure?
    requires IsErrContractAlreadyUpdated(obs[0].probe.error, prm.errAlreadyUpdated)
    ensures UpdateRun(prm, s, obs).decisions == [Return(())]
    ensures UpdateRun(prm, s, obs).state.deficiencyReports == s.deficiencyReports
    ensures UpdateRun(prm, s, obs).state.updateTxValidUntilBlock == s.updateTxValidUntilBlock
  {
  }
}
