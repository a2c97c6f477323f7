/**
 * initNNSContract (pkg/morph/deploy/nns.go): the loop that makes sure the
 * NNS contract exists on the chain with ID 1, deploying it when it is
 * missing and a committee group key can be made. One iteration of the Go
 * loop is one Step; the block-paced repetition is a sequence of
 * observations, one per iteration.
 */
module NnsInit {
  import opened Wrappers
  import opened GoErrors
  import opened Neo
  import opened NnsNames
  import opened Util
  import opened Loops

  /** The name the NNS contract declares in its manifest. */
  const NnsContractName: string := "NameService"

  /** A management.Deploy call: the executable, the manifest and the data passed to _deploy. */
  datatype DeployCall = DeployCall(nef: Nef, manifest: Manifest, data: seq<seq<seq<string>>>)

  /** The parameters of deployNNSContractPrm that stay fixed across iterations. */
  datatype DeployPrm = DeployPrm(
    crypto: Crypto,
    localAccount: Uint160,              // prm.localAcc.ScriptHash()
    localNEF: Nef,
    systemEmail: string,
    hasInitCommitteeGroupKey: bool)     // prm.initCommitteeGroupKey != nil

  /** What one iteration observes: each answer is used only if the iteration gets that far. */
  datatype InitObservation = InitObservation(
    contextErr: Option<Error>,                    // ctx.Err() at the top of the iteration
    chain: Blockchain,
    committeeGroupKey: Result<PrivateKey, Error>, // what initCommitteeGroupKey returns
    currentHeight: u32,                           // monitor.currentHeight()
    localActor: Result<(), Error>,                // actor.NewSimple
    deploy: Result<u32, Error>)                   // management.Deploy: the transaction's valid-until block

  /** The loop-carried variables; managementContract is represented by whether it was built. */
  datatype InitState = InitState(
    sentTxValidUntilBlock: u32,
    committeeGroupKey: Option<PrivateKey>,
    managementContractBuilt: bool,
    localManifest: Manifest)

  type InitOutcome = StepOutcome<InitState, Uint160, DeployCall>

  /** The data argument of the deployment: a one-element list holding the two TLDs with the system e-mail. */
  function DeployData(systemEmail: string): seq<seq<seq<string>>>
  {
    [[[DomainBootstrap, systemEmail], [DomainContractAddresses, systemEmail]]]
  }

  function WrongNameError(name: string): Error
  {
    Leaf(Anonymous, "wrong name of the contract with ID=1: expected '" + NnsContractName + "', got '" + name + "'")
  }

  /** One iteration of initNNSContract. */
  function InitStep(prm: DeployPrm, s: InitState, o: InitObservation): InitOutcome
  {
    if o.contextErr.Some? then
      StepOutcome(s, Fail(Wrap("wait for NNS contract synchronization", o.contextErr.value)))
    else
      var read := ReadNNSOnChainState(o.chain);
      if read.Failure? then StepOutcome(s, Continue)
      else if read.value.Some? then
        var st := read.value.value;
        if st.manifest.name != NnsContractName then StepOutcome(s, Fail(WrongNameError(st.manifest.name)))
        else StepOutcome(s, Return(st.hash))
      else InitMissingContract(prm, s, o)
  }

  /** The rest of an iteration that found no contract with ID 1. */
  function InitMissingContract(prm: DeployPrm, s: InitState, o: InitObservation): InitOutcome
  {
    if !prm.hasInitCommitteeGroupKey then StepOutcome(s, Continue)
    else if s.committeeGroupKey.None? && o.committeeGroupKey.Failure? then StepOutcome(s, Continue)
    else
      var key := if s.committeeGroupKey.Some? then s.committeeGroupKey.value else o.committeeGroupKey.value;
      var s1 := s.(committeeGroupKey := Some(key));
      if ValidityWindowOpen(s1.sentTxValidUntilBlock, o.currentHeight) then StepOutcome(s1, Continue)
      else if !s1.managementContractBuilt && o.localActor.Failure? then StepOutcome(s1, Continue)
      else
        var s2 := if s1.managementContractBuilt then s1
                  else s1.(managementContractBuilt := true,
                           localManifest := SetGroup(prm.crypto, s1.localManifest, prm.localNEF, key, prm.localAccount));
        var vub := if o.deploy.Success? then o.deploy.value else 0;
        StepOutcome(s2.(sentTxValidUntilBlock := vub),
                       Submit(DeployCall(prm.localNEF, s2.localManifest, DeployData(prm.systemEmail))))
  }

  /** The loop body as a value, for the generic loop. */
  function InitIteration(prm: DeployPrm): (InitState, InitObservation) -> InitOutcome
  {
    (s, o) => InitStep(prm, s, o)
  }

  /** The loop over a bounded sequence of iterations: it stops at the first Return or Fail. */
  function InitRun(prm: DeployPrm, s: InitState, obs: seq<InitObservation>): RunOutcome<InitState, Uint160, DeployCall>
  {
    Run(InitIteration(prm), s, obs)
  }

  /** initNNSContract's local variables and the manifest it signs in place. */
  class InitNNSContract {
    const prm: DeployPrm
    var sentTxValidUntilBlock: u32
    var committeeGroupKey: Option<PrivateKey>
    var managementContractBuilt: bool
    var localManifest: Manifest

    function State(): InitState
      reads this
    {
      InitState(sentTxValidUntilBlock, committeeGroupKey, managementContractBuilt, localManifest)
    }

    constructor (prm: DeployPrm, localManifest: Manifest)
      ensures this.prm == prm && State() == InitState(0, None, false, localManifest)
    {
      this.prm := prm;
      sentTxValidUntilBlock := 0;
      committeeGroupKey := None;
      managementContractBuilt := false;
      this.localManifest := localManifest;
    }

    /** One iteration of the loop body; Continue and Submit lead to waitForNextBlock. */
    method Step(o: InitObservation) returns (d: Decision<Uint160, DeployCall>)
      modifies this
      ensures StepOutcome(State(), d) == InitStep(prm, old(State()), o)
    {
      if o.contextErr.Some? {
        return Fail(Wrap("wait for NNS contract synchronization", o.contextErr.value));
      }

      var stateOnChain := ReadNNSOnChainState(o.chain);
      if stateOnChain.Failure? {
        return Continue;
      }

      if stateOnChain.value.Some? {
        var st := stateOnChain.value.value;
        if st.manifest.name != NnsContractName {
          return Fail(WrongNameError(st.manifest.name));
        }
        return Return(st.hash);
      }

      if !prm.hasInitCommitteeGroupKey {
        return Continue;
      }

      if committeeGroupKey.None? {
        if o.committeeGroupKey.Failure? {
          return Continue;
        }
        committeeGroupKey := Some(o.committeeGroupKey.value);
      }

      if sentTxValidUntilBlock > 0 {
        if o.currentHeight <= sentTxValidUntilBlock {
          return Continue;
        }
      }

      if !managementContractBuilt {
        if o.localActor.Failure? {
          return Continue;
        }
        managementContractBuilt := true;
        localManifest := SetGroupInManifest(prm.crypto, localManifest, prm.localNEF, committeeGroupKey.value, prm.localAccount);
      }

      var call := DeployCall(prm.localNEF, localManifest, DeployData(prm.systemEmail));
      if o.deploy.Failure? {
        sentTxValidUntilBlock := 0;
      } else {
        sentTxValidUntilBlock := o.deploy.value;
      }
      d := Submit(call);
    }

    /** The loop, fed one observation per iteration until it returns or the observations run out. */
    method Run(obs: seq<InitObservation>) returns (decisions: seq<Decision<Uint160, DeployCall>>)
      modifies this
      ensures RunOutcome(State(), decisions) == InitRun(prm, old(State()), obs)
    {
      decisions := [];
      var i := 0;
      while i < |obs|
        invariant 0 <= i <= |obs|
        invariant InitRun(prm, old(State()), obs).decisions == decisions + InitRun(prm, State(), obs[i..]).decisions
        invariant InitRun(prm, old(State()), obs).state == InitRun(prm, State(), obs[i..]).state
      {
        assert obs[i..][1..] == obs[i + 1..];
        var d := Step(obs[i]);
        decisions := decisions + [d];
        if d.Terminal() {
          return;
        }
        i := i + 1;
      }
    }
  }

  // -----------------------------------------------------------------------
  // properties of one iteration
  // -----------------------------------------------------------------------

  /**
   * The loop succeeds exactly when the contract with ID 1 is found under the
   * name NameService, and it returns that contract's hash; any other name is
   * an error that ends the loop.
   */
  lemma InitOutcomeOnExistingContract(prm: DeployPrm, s: InitState, o: InitObservation)
    requires o.contextErr.None? && o.chain.contractStateByID(NnsContractID).Success?
    ensures var st := o.chain.contractStateByID(NnsContractID).value;
            var r := InitStep(prm, s, o);
            r.state == s &&
            (st.manifest.name == NnsContractName ==> r.decision == Return(st.hash)) &&
            (st.manifest.name != NnsContractName ==> r.decision.Fail? && !r.decision.error.Wrapped?)
  {
  }

  /** Only a found, correctly named contract makes the loop return. */
  lemma InitReturnsOnlyFoundContract(prm: DeployPrm, s: InitState, o: InitObservation)
    ensures InitStep(prm, s, o).decision.Return? <==>
              o.contextErr.None? && o.chain.contractStateByID(NnsContractID).Success? &&
              o.chain.contractStateByID(NnsContractID).value.manifest.name == NnsContractName
  {
  }

  /** A done context ends the loop with an error wrapping the context's error, before anything is read. */
  lemma InitCancellation(prm: DeployPrm, s: InitState, o: InitObservation)
    requires o.contextErr.Some?
    ensures InitStep(prm, s, o) == StepOutcome(s, Fail(Wrap("wait for NNS contract synchronization", o.contextErr.value)))
  {
  }

  /** A failed read of the contract state, or a missing contract without a key constructor, only waits for the next block. */
  lemma InitRetriesWithoutChange(prm: DeployPrm, s: InitState, o: InitObservation)
    requires o.contextErr.None?
    requires o.chain.contractStateByID(NnsContractID).Failure?
    requires !Is(o.chain.contractStateByID(NnsContractID).error, UnknownContract) || !prm.hasInitCommitteeGroupKey
    ensures InitStep(prm, s, o) == StepOutcome(s, Continue)
  {
  }

  /**
   * A deploy is submitted only when the contract is missing, a key
   * constructor is configured, and no earlier deploy transaction may still
   * be accepted; afterwards the window is the returned valid-until block, or
   * 0 when Deploy failed. Without a submission the window is unchanged.
   */
  lemma InitDeployGuard(prm: DeployPrm, s: InitState, o: InitObservation)
    ensures var r := InitStep(prm, s, o);
            (r.decision.Submit? ==>
               && prm.hasInitCommitteeGroupKey
               && o.chain.contractStateByID(NnsContractID).Failure?
               && Is(o.chain.contractStateByID(NnsContractID).error, UnknownContract)
               && !ValidityWindowOpen(s.sentTxValidUntilBlock, o.currentHeight)
               && r.state.sentTxValidUntilBlock == (if o.deploy.Success? then o.deploy.value else 0))
            && (!r.decision.Submit? ==> r.state.sentTxValidUntilBlock == s.sentTxValidUntilBlock)
  {
  }

  /**
   * The committee group key, once made, is kept; a failed construction
   * leaves none. The manifest is signed only when the management contract
   * is first built, and keeps its contents otherwise.
   */
  lemma InitKeyAndManifest(prm: DeployPrm, s: InitState, o: InitObservation)
    ensures var r := InitStep(prm, s, o).state;
            && (s.committeeGroupKey.Some? ==> r.committeeGroupKey == s.committeeGroupKey)
            && (s.committeeGroupKey.None? && o.committeeGroupKey.Failure? ==> r.committeeGroupKey.None?)
            && (s.committeeGroupKey.None? && r.committeeGroupKey.Some? ==> r.committeeGroupKey == Some(o.committeeGroupKey.value))
            && (s.managementContractBuilt ==> r.managementContractBuilt && r.localManifest == s.localManifest)
            && (!s.managementContractBuilt && !r.managementContractBuilt ==> r.localManifest == s.localManifest)
            && (!s.managementContractBuilt && r.managementContractBuilt ==>
                  r.committeeGroupKey.Some? &&
                  r.localManifest == SetGroup(prm.crypto, s.localManifest, prm.localNEF, r.committeeGroupKey.value, prm.localAccount))
  {
  }

  /** The manifest carries the committee group's signature over the address of the contract the local account deploys. */
  predicate SignedByCommitteeGroup(prm: DeployPrm, m: Manifest, key: PrivateKey)
  {
    var k := GroupIndex(m.groups, prm.crypto.publicKey(key));
    k >= 0 &&
    m.groups[k].signature == prm.crypto.sign(key, prm.crypto.createContractHash(prm.localAccount, prm.localNEF.checksum, m.name))
  }

  /** Once the management contract is built, the key is fixed and the manifest is signed with it. */
  predicate InitInv(prm: DeployPrm, s: InitState)
  {
    s.managementContractBuilt ==> s.committeeGroupKey.Some? && SignedByCommitteeGroup(prm, s.localManifest, s.committeeGroupKey.value)
  }

  /** Every iteration keeps InitInv, and every submitted deploy carries the signed manifest. */
  lemma InitStepKeepsInv(prm: DeployPrm, s: InitState, o: InitObservation)
    requires InitInv(prm, s)
    ensures InitInv(prm, InitStep(prm, s, o).state)
    ensures var r := InitStep(prm, s, o);
            r.decision.Submit? ==>
              r.decision.call.manifest == r.state.localManifest &&
              SignedByCommitteeGroup(prm, r.decision.call.manifest, r.state.committeeGroupKey.value)
  {
    var r := InitStep(prm, s, o);
    if !s.managementContractBuilt && r.state.managementContractBuilt {
      var key := r.state.committeeGroupKey.value;
      SetGroupIdempotent(prm.crypto, s.localManifest, prm.localNEF, key, prm.localAccount);
    }
  }

  // -----------------------------------------------------------------------
  // properties of the loop
  // -----------------------------------------------------------------------

  /** Without a committee group key constructor the loop never deploys, however many blocks pass. */
  lemma {:induction false} InitPassiveNeverDeploys(prm: DeployPrm, s: InitState, obs: seq<InitObservation>)
    requires !prm.hasInitCommitteeGroupKey
    ensures var ds := InitRun(prm, s, obs).decisions;
            forall k :: 0 <= k < |ds| ==> !ds[k].Submit?
    ensures InitRun(prm, s, obs).state == s
    decreases |obs|
  {
    if obs != [] {
      var first := InitStep(prm, s, obs[0]);
      if !first.decision.Terminal() {
        InitPassiveNeverDeploys(prm, first.state, obs[1..]);
        RunUnfold(InitIteration(prm), s, obs);
      }
    }
  }

  /** The deploy guard in the terms of the generic loop: the window is sentTxValidUntilBlock. */
  lemma InitGuardsWindow(prm: DeployPrm)
    ensures GuardsWindow(InitIteration(prm), (s: InitState) => s.sentTxValidUntilBlock,
                         (o: InitObservation) => o.currentHeight, InitAccepted)
  {
    forall s: InitState, o: InitObservation {
      InitDeployGuard(prm, s, o);
    }
  }

  /** The valid-until block of an accepted deploy, 0 for a failed one. */
  function InitAccepted(o: InitObservation): u32
  {
    if o.deploy.Success? then o.deploy.value else 0
  }

  /**
   * No duplicate deploy: when the deploy of iteration k1 was accepted with
   * valid-until block v > 0, the next deploy, at iteration k2, happens at a
   * height above v.
   */
  lemma InitNoDuplicateDeploy(prm: DeployPrm, s: InitState, obs: seq<InitObservation>, k1: nat, k2: nat)
    requires var ds := InitRun(prm, s, obs).decisions;
             k1 < k2 < |ds| && ds[k1].Submit? && ds[k2].Submit? &&
             (forall j :: k1 < j < k2 ==> !ds[j].Submit?)
    requires obs[k1].deploy.Success? && obs[k1].deploy.value > 0
    ensures obs[k2].currentHeight > obs[k1].deploy.value
  {
    InitGuardsWindow(prm);
    NoResubmitInsideWindow(InitIteration(prm), (s: InitState) => s.sentTxValidUntilBlock,
                           (o: InitObservation) => o.currentHeight, InitAccepted, s, obs, k1, k2);
  }

  /** A fatal wrong name ends the loop at once: it is the only decision. */
  lemma InitWrongNameStopsLoop(prm: DeployPrm, s: InitState, obs: seq<InitObservation>)
    requires obs != [] && obs[0].contextErr.None?
    requires obs[0].chain.contractStateByID(NnsContractID).Success?
    requires obs[0].chain.contractStateByID(NnsContractID).value.manifest.name != NnsContractName
    ensures InitRun(prm, s, obs).decisions ==
              [Fail(WrongNameError(obs[0].chain.contractStateByID(NnsContractID).value.manifest.name))]
  {
  }

  /**
   * Deployment from scratch: the contract is missing, the key and the actor
   * are made and the deploy is accepted; at the next block the contract is
   * there under its name, and the loop returns its hash after exactly one
   * deploy, which carried the signed manifest.
   */
  lemma InitDeploysOnceThenReturns(prm: DeployPrm, m: Manifest, o1: InitObservation, o2: InitObservation, key: PrivateKey)
    requires prm.hasInitCommitteeGroupKey
    requires o1.contextErr.None? && o1.chain.contractStateByID(NnsContractID).Failure?
    requires Is(o1.chain.contractStateByID(NnsContractID).error, UnknownContract)
    requires o1.committeeGroupKey == Success(key) && o1.localActor.Success?
    requires o2.contextErr.None? && o2.chain.contractStateByID(NnsContractID).Success?
    requires o2.chain.contractStateByID(NnsContractID).value.manifest.name == NnsContractName
    ensures InitRun(prm, InitState(0, None, false, m), [o1, o2]).decisions ==
              [Submit(DeployCall(prm.localNEF, SetGroup(prm.crypto, m, prm.localNEF, key, prm.localAccount), DeployData(prm.systemEmail))),
               Return(o2.chain.contractStateByID(NnsContractID).value.hash)]
  {
    var s1 := InitStep(prm, InitState(0, None, false, m), o1).state;
    assert [o1, o2][1..] == [o2];
    assert InitRun(prm, s1, [o2]).decisions == [Return(o2.chain.contractStateByID(NnsContractID).value.hash)];
  }

  /**
   * Re-running the loop against a chain that already has the contract
   * returns the same hash at once and deploys nothing, whatever the loop
   * remembers.
   */
  lemma InitIdempotent(prm: DeployPrm, s1: InitState, s2: InitState, obs: seq<InitObservation>)
    requires obs != [] && obs[0].contextErr.None?
    requires obs[0].chain.contractStateByID(NnsContractID).Success?
    requires obs[0].chain.contractStateByID(NnsContractID).value.manifest.name == NnsContractName
    ensures InitRun(prm, s1, obs).decisions == InitRun(prm, s2, obs).decisions
              == [Return(obs[0].chain.contractStateByID(NnsContractID).value.hash)]
  {
  }
}
