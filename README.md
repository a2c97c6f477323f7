# NeoFS NNS deployment engine, modelled in Dafny

This project models the part of the NeoFS sidechain deployment code
(`pkg/morph/deploy`) that puts the NeoFS Name Service (NNS) contract on
the chain and keeps it current:

- co-signing a contract manifest by the committee group (`setGroupInManifest`);
- reading on-chain contract state: the NNS contract by ID 1, and any contract
  by its NNS domain record, where the record is decoded as little-endian hex
  first and then as a NEO address;
- the NNS domain names of the bootstrap protocol, and the classification of
  the `resolve` answer (missing domain, missing record, malformed response,
  first value);
- error checks that match on the error text, with Go's `%w` wrapping and
  `errors.Is`;
- the block monitor (cached height, waiting for a new block) and the
  transaction group monitor (pending flag);
- the two block-paced retry loops: `initNNSContract`, which deploys the
  contract when it is missing, and `updateNNSContract`, which updates it
  through a committee-signed Notary transaction.

Layout, one module per file:

| file | module | models |
|---|---|---|
| `wrappers.dfy` | `Wrappers` | `Option`, `Result` |
| `go_errors.dfy` | `GoErrors` | error chains, `fmt.Errorf("…: %w")`, `errors.Is`, `strings.Contains` |
| `neo.dfy` | `Neo` | neo-go entities, the chain, crypto and address-codec collaborators, the validity window, a loop decision |
| `loops.dfy` | `Loops` | the shape both retry loops share, and the window discipline proved once for both |
| `nns_names.dfy` | `NnsNames` | domain constants and formatters, `lookupNNSDomainRecord` |
| `util.dfy` | `Util` | `isErr*`, `setGroupInManifest`, `readNNSOnChainState`, `readContractOnChainStateByDomainName` |
| `monitors.dfy` | `Monitors` | `blockchainMonitor`, `transactionGroupMonitor` |
| `nns_init.dfy` | `NnsInit` | `initNNSContract` |
| `nns_update.dfy` | `NnsUpdate` | `updateNNSContract` |

How the model is built:

- Each retry loop is a class. Its fields are the loop's local variables
  (`sentTxValidUntilBlock`, `committeeGroupKey`, whether the management
  contract was built, `updateTxValidUntilBlock`) and the manifest the loop
  signs in place.
- The class's `Step` method is one iteration of the Go `for` body. It takes one
  observation: the context error, the chain, the current height, and the
  results of the calls the iteration would make. It returns `Continue`,
  `Return`, `Fail` or `Submit`.
- `Run` feeds a bounded sequence of observations, one per block, until the loop
  leaves. Both methods are proved equal to pure functions (`InitStep`/`InitRun`,
  `UpdateStep`/`UpdateRun`), and the properties are proved about those functions.
- `setGroupInManifest` is a method with the source's search loop. It is proved
  equal to the function `SetGroup`.
- The collaborators the code calls but does not define are function-typed fields
  of datatypes, so the model knows nothing about them beyond their types:
  - chain reads and the `resolve` invocation;
  - contract-hash derivation, signing and public-key derivation;
  - the address decoders;
  - `contractVersion.cmp`;
  - the not-enough-GAS and deposit-expiry classifiers.
- The monitors' goroutines become explicit events. A block arriving stores its
  index. A timer tick compares heights. The context can end. `WaitAny` can return.
- `onNotaryDepositDeficiency` is recorded as the list of the `lackOfGAS` values
  it was called with.

Behaviours of the code the model keeps as they are:

- The stored block height is whatever index arrived last (`util.go:109`), so it
  is not monotonic.
- The deposit-deficiency callback fires on every failing iteration, not once
  per episode.
- A failed `MakeCall` probe that is not "already updated" goes through the same
  lack-of-GAS / deposit-expiry classification as a failed `Notarize`
  (`nns.go:350-394`). Such a probe can call the callback too.

## Model

| member | source | states |
|---|---|---|
| `GoErrors.Wrap` | pkg/morph/deploy/util.go:167 | `fmt.Errorf("<context>: %w", err)`: the text is the context, ": ", then the cause's text, and `errors.Is` answers for the wrapped error exactly as for the cause |
| `GoErrors.ContainsSurvivesWrapping` | pkg/morph/deploy/util.go:24-30 | text found in an error is still found after any wrapping, so the substring checks see through `%w` chains |
| `Util.IsErrContractAlreadyUpdated` | pkg/morph/deploy/util.go:24-26 | `isErrContractAlreadyUpdated`: true when the error's full text contains the contracts' "already updated" message; `Util.ErrorChecksSeeThroughWrapping` proves it survives wrapping |
| `Util.IsErrTLDNotFound` | pkg/morph/deploy/util.go:28-30 | `isErrTLDNotFound`: true when the error's full text contains "TLD not found"; `Util.ErrorChecksSeeThroughWrapping` proves it survives wrapping |
| `Util.ErrorChecksSeeThroughWrapping` | pkg/morph/deploy/util.go:24-30 | `isErrContractAlreadyUpdated` and `isErrTLDNotFound` stay true when the error is wrapped |
| `Util.GroupIndex` | pkg/morph/deploy/util.go:37-44 | the search result is the index of the first group with the key, or -1 when no group has it |
| `Util.WithGroup` | pkg/morph/deploy/util.go:46-54 | with an entry for the key, only that first entry's signature changes, and the length and all other entries stay; without one, exactly one `{key, sig}` entry is appended and the old entries are kept |
| `Util.SetGroupInManifest` | pkg/morph/deploy/util.go:32-55 | the search loop followed by replace-or-append leaves the manifest `SetGroup` describes |
| `Util.WithGroupFindsKey` | pkg/morph/deploy/util.go:39-54 | after signing, the key is found and carries the new signature; signing again with the same key does not grow the list |
| `Util.WithGroupIdempotent` | pkg/morph/deploy/util.go:39-54 | signing twice with the same key and signature gives the same group list as signing once |
| `Util.WithGroupKeepsKeysUnique` | pkg/morph/deploy/util.go:39-54 | signing keeps the group keys pairwise distinct |
| `Util.SetGroupIdempotent` | pkg/morph/deploy/util.go:32-55 | a second call with the same inputs leaves the manifest unchanged; name and other fields are kept; the key's entry holds `Sign(CreateContractHash(deployer, nef.Checksum, name))` |
| `Util.ReadNNSOnChainState` | pkg/morph/deploy/util.go:159-170 | it always reads contract ID 1; `ErrUnknownContract` is exactly the "missing" answer; any other failure is wrapped and is not `ErrUnknownContract`; success returns the state unchanged |
| `Util.ReadContractOnChainStateByDomainName` | pkg/morph/deploy/util.go:220-241 | lookup errors are returned unchanged; a record that neither decoder accepts gives an error that `errors.Is` matches to `errInvalidContractDomainRecord` and whose text quotes the record; a decoded address is read, and a failed read is wrapped |
| `Util.InvalidRecordError` | pkg/morph/deploy/util.go:231 | the invalid-record error matches `errInvalidContractDomainRecord` and contains the record |
| `Util.DecodeContractAddress` | pkg/morph/deploy/util.go:226-233 | the record is decoded as little-endian hex first and only on failure as a NEO address; no address when both fail; `Util.HexRecordTakesPrecedence` and `Util.RecordFormatsAgree` are proved about it |
| `Util.HexRecordTakesPrecedence` | pkg/morph/deploy/util.go:226-233 | when the little-endian hex decoder accepts the record, the NEO-address decoder is never consulted |
| `Util.RecordFormatsAgree` | pkg/morph/deploy/util.go:226-238 | a hex record and an address-form record that name the same address give the same result |
| `NnsNames.DecimalRoundTrip` | pkg/morph/deploy/nns.go:34 | the `%d` digits of a natural number parse back to it |
| `NnsNames.FormatIntShape` | pkg/morph/deploy/nns.go:34 | `%d` of a negative integer is '-' followed by the digits of its magnitude; a non-negative one starts with a digit |
| `NnsNames.FormatIntInjective` | pkg/morph/deploy/nns.go:34 | different integers print differently under `%d` |
| `NnsNames.DomainConstants` | pkg/morph/deploy/nns.go:26-39 | the transaction domain is "designate-committee-notary-tx.bootstrap"; member domains read "designate-committee-notary-<i>.bootstrap" and "committee-group-<i>.bootstrap" |
| `NnsNames.DesignateNotarySignatureDomainForMember` | pkg/morph/deploy/nns.go:33-35 | the domain "designate-committee-notary-<i>.bootstrap" of member i; `NnsNames.DesignateNotaryDomainsDistinct` and `NnsNames.TxDomainIsNoMemberDomain` are proved about it |
| `NnsNames.CommitteeGroupDomainForMember` | pkg/morph/deploy/nns.go:37-39 | the domain "committee-group-<i>.bootstrap" of member i; `NnsNames.CommitteeGroupDomainsDistinct` is proved about it |
| `NnsNames.DesignateNotaryDomainsDistinct` | pkg/morph/deploy/nns.go:33-35 | two member indices give the same signature domain if and only if they are equal |
| `NnsNames.CommitteeGroupDomainsDistinct` | pkg/morph/deploy/nns.go:37-39 | two member indices give the same group-key domain if and only if they are equal |
| `NnsNames.TxDomainIsNoMemberDomain` | pkg/morph/deploy/nns.go:26-35 | the transaction domain shares the prefix but is no member's signature domain |
| `NnsNames.LookupNNSDomainRecordResponse` | pkg/morph/deploy/nns.go:202-229 | the answer is `errMissingDomain` if and only if the call failed with a text containing "token not found", so no answer of a successful call passes for a missing domain; any other call error is wrapped around the cause; `errMissingDomainRecord` comes exactly from a Null answer or an empty array; an answer that is neither array nor Null is a malformed-response error; a first item that is not a byte string gives an error wrapping the conversion failure, which is neither missing-domain nor missing-record; success happens exactly when the first item converts to bytes, and the record is those bytes |
| `NnsNames.LookupNNSDomainRecord` | pkg/morph/deploy/nns.go:202-203 | invokes `resolve` on the NNS contract with the domain and the TXT record type, and classifies the answer as `NnsNames.LookupNNSDomainRecordResponse` states |
| `Monitors.BlockchainMonitor.Start` | pkg/morph/deploy/util.go:72-97 | protocol, block-count and subscription failures are checked in that order and returned wrapped; success happens exactly when all three succeed; the new monitor starts at the block count with no signal pending |
| `Monitors.BlockchainMonitor.constructor` | pkg/morph/deploy/util.go:90-97 | the monitor holds the block interval, the subscription and the initial height |
| `Monitors.BlockchainMonitor.OnBlock` | pkg/morph/deploy/util.go:109-114 | an arriving block's index is stored whatever it is, and the single-slot signal is set |
| `Monitors.BlockchainMonitor.CurrentHeight` | pkg/morph/deploy/util.go:124-126 | the height stored last; `Monitors.HeightIsLastStoredIndex` proves it is the index of the last block to arrive, or the initial height before any |
| `Monitors.BlockchainMonitor.WaitForNextBlock` | pkg/morph/deploy/util.go:130-146 | it returns at the first tick where the stored height exceeds the height at the call, or at the end of the context, and not earlier; the height and signal follow the blocks that arrived meanwhile |
| `Monitors.HeightIsLastStoredIndex` | pkg/morph/deploy/util.go:97-126 | `currentHeight` is the initial height until a block arrives, then the index of the last block that arrived |
| `Monitors.HeightFollowsLastBlock` | pkg/morph/deploy/util.go:109 | the stored height can go down: 9 then 5 leaves 5 |
| `Monitors.TransactionGroupMonitor.constructor` | pkg/morph/deploy/util.go:181-185 | a new monitor is not pending |
| `Monitors.TransactionGroupMonitor.IsPending` | pkg/morph/deploy/util.go:191-193 | the pending flag, which `Reset` and `OnWaitAnyReturned` clear and `TrackPendingTransactionsAsync` sets |
| `Monitors.TransactionGroupMonitor.Reset` | pkg/morph/deploy/util.go:187-189 | `reset` clears the pending flag |
| `Monitors.TransactionGroupMonitor.TrackPendingTransactionsAsync` | pkg/morph/deploy/util.go:195-200 | a non-empty hash list is required, since the code panics without one; the monitor is pending on return |
| `Monitors.TransactionGroupMonitor.OnWaitAnyReturned` | pkg/morph/deploy/util.go:204-207 | when `WaitAny` returns, whatever it returned, the monitor is no longer pending |
| `Loops.Run` | pkg/morph/deploy/nns.go:102-196 | the loop makes at most one decision per block and stops at the first `Return` or `Fail`; a run with fewer decisions than blocks ended on a `Return` or `Fail` |
| `Loops.RunEndsOnlyAtLast` | pkg/morph/deploy/nns.go:102-196 | every decision of a run except the last goes on to the next block |
| `Loops.FirstSubmitAfterWindow` | pkg/morph/deploy/nns.go:147-157 | from a recorded window v > 0, the first submission happens at a height above v |
| `Loops.NoResubmitInsideWindow` | pkg/morph/deploy/nns.go:147-193 | after a submission accepted with valid-until block v > 0, the next submission happens at a height above v |
| `NnsInit.InitNNSContract.constructor` | pkg/morph/deploy/nns.go:98-100 | the loop starts with no window, no key, no management contract and the parameter manifest |
| `NnsInit.InitStep` | pkg/morph/deploy/nns.go:103-195 | one iteration of `initNNSContract`: the state and decision after one block; `NnsInit.InitCancellation`, `NnsInit.InitRetriesWithoutChange`, `NnsInit.InitOutcomeOnExistingContract`, `NnsInit.InitDeployGuard` and `NnsInit.InitKeyAndManifest` state what it does |
| `NnsInit.InitNNSContract.Step` | pkg/morph/deploy/nns.go:103-195 | one iteration of `initNNSContract`'s body, proved equal to `InitStep` |
| `NnsInit.InitNNSContract.Run` | pkg/morph/deploy/nns.go:102-196 | the loop over a sequence of observations, proved equal to `InitRun` |
| `NnsInit.InitOutcomeOnExistingContract` | pkg/morph/deploy/nns.go:117-126 | a found contract named "NameService" gives its hash; any other name is a fatal error, not a wrapped retry |
| `NnsInit.InitReturnsOnlyFoundContract` | pkg/morph/deploy/nns.go:111-126 | the loop succeeds if and only if contract ID 1 is read and is named "NameService" |
| `NnsInit.InitCancellation` | pkg/morph/deploy/nns.go:103-106 | a done context ends the iteration with the wrapped context error before anything is read |
| `NnsInit.InitRetriesWithoutChange` | pkg/morph/deploy/nns.go:111-131 | a read error, or a missing contract without a key constructor, only waits for the next block and changes nothing |
| `NnsInit.InitDeployGuard` | pkg/morph/deploy/nns.go:128-193 | `Deploy` is called only for a missing contract with a key constructor and a closed window; afterwards the window is the returned vub, or 0 when `Deploy` failed; without a deploy the window is unchanged |
| `NnsInit.InitKeyAndManifest` | pkg/morph/deploy/nns.go:135-171 | a constructed key is kept; a failed construction leaves none, so it is retried; the manifest is signed only when the management contract is first built |
| `NnsInit.InitStepKeepsInv` | pkg/morph/deploy/nns.go:161-177 | once the management contract is built, the manifest carries the committee group's signature, and every deploy sends that manifest |
| `NnsInit.InitPassiveNeverDeploys` | pkg/morph/deploy/nns.go:128-131 | without a key constructor the loop never deploys and its state never changes, however many blocks pass |
| `NnsInit.InitGuardsWindow` | pkg/morph/deploy/nns.go:147-193 | the init loop keeps the window discipline of `Loops.GuardsWindow` over `sentTxValidUntilBlock` |
| `NnsInit.InitNoDuplicateDeploy` | pkg/morph/deploy/nns.go:147-193 | after a deploy accepted with valid-until block v > 0, the next deploy happens at a height above v |
| `NnsInit.InitWrongNameStopsLoop` | pkg/morph/deploy/nns.go:120-123 | a wrong name ends the loop at once, with that error as the only decision |
| `NnsInit.InitDeploysOnceThenReturns` | pkg/morph/deploy/nns.go:133-196 | from scratch: one deploy carrying the signed manifest and a one-element list wrapping the two TLD pairs, then the hash once the contract appears |
| `NnsInit.InitIdempotent` | pkg/morph/deploy/nns.go:84-125 | re-running against a chain that has the contract returns the same hash at once, whatever the loop remembers |
| `NnsUpdate.UpdatePreludeError` | pkg/morph/deploy/nns.go:267-287 | NEF encoding, manifest encoding, committee actor and local version are checked in that order, each failure wrapped; the loop starts only when all four succeed |
| `NnsUpdate.UpdateCallAsWritten` | pkg/morph/deploy/nns.go:348-349 | the update call as the code builds it: the found contract, `update`, the NEF bytes, the manifest encoded before the loop, and the extra arguments |
| `NnsUpdate.UpdateStep` | pkg/morph/deploy/nns.go:292-396 | one iteration of `updateNNSContract` with the corrected update call; `NnsUpdate.UpdateDecidesBeforeSending`, `NnsUpdate.UpdateNotarizeGuard`, `NnsUpdate.UpdateDepositDeficiency` and `NnsUpdate.UpdateSubmitsSignedManifest` state what it does |
| `NnsUpdate.UpdateStepAsWritten` | pkg/morph/deploy/nns.go:292-396 | the same iteration with the update call the code builds; `NnsUpdate.UpdateAsWrittenDiffersOnlyInManifest` ties it to `NnsUpdate.UpdateStep` |
| `NnsUpdate.UpdateNNSContract.constructor` | pkg/morph/deploy/nns.go:289 | the loop starts with no window, no callback calls and `prm.localManifest`, the same manifest `jLocalManifest` encodes at nns.go:273 |
| `NnsUpdate.UpdateNNSContract.OnNotaryDepositDeficiency` | pkg/morph/deploy/nns.go:391 | each callback call is recorded with its `lackOfGAS` argument |
| `NnsUpdate.UpdateNNSContract.Step` | pkg/morph/deploy/nns.go:292-396 | one iteration of `updateNNSContract`'s body, proved equal to `UpdateStep`, except that the update call carries the manifest signed in this iteration where the code sends `jLocalManifest` (see Findings) |
| `NnsUpdate.UpdateNNSContract.Run` | pkg/morph/deploy/nns.go:291-399 | the loop over a sequence of observations, proved equal to `UpdateRun`, which submits the signed manifest where the code sends `jLocalManifest` (see Findings) |
| `NnsUpdate.UpdateDecidesBeforeSending` | pkg/morph/deploy/nns.go:300-332 | a missing contract is fatal; another read failure waits; equal checksums return with no call; a local version below the chain's returns; equal versions with different checksums are fatal; none of these changes the state |
| `NnsUpdate.UpdateCancellation` | pkg/morph/deploy/nns.go:292-296 | a done context ends the iteration, with the state unchanged, with an error wrapping exactly the context error |
| `NnsUpdate.UpdateSucceedsOnlyWhenNothingToDo` | pkg/morph/deploy/nns.go:309-356 | the loop succeeds if and only if the checksums are equal, the local version is behind, or the probe says "already updated" |
| `NnsUpdate.UpdateNotarizeGuard` | pkg/morph/deploy/nns.go:357-396 | `Notarize` is called only with the local version ahead, a successful probe and a closed window; success records the vub and a failure keeps the old window |
| `NnsUpdate.UpdateNotarizesWhenWindowClosed` | pkg/morph/deploy/nns.go:357-372 | with the version ahead, a successful probe and a closed window, `Notarize` is always called |
| `NnsUpdate.UpdateDepositDeficiency` | pkg/morph/deploy/nns.go:350-394 | the callback is called at most once per iteration, exactly when the failed probe (other than "already updated") or the failed `Notarize` is a lack of GAS or an expiring deposit, with `lackOfGAS` as argument; the loop then goes on |
| `NnsUpdate.UpdateSubmitsSignedManifest` | pkg/morph/deploy/nns.go:341-349 | the corrected update call sends the manifest just signed by the committee group, which is the manifest the loop keeps, to the contract found, with the local NEF and the extra arguments |
| `NnsUpdate.UpdateAsWrittenDropsCommitteeGroup` | pkg/morph/deploy/nns.go:273-349 | every update call of the as-written iteration carries the manifest encoded before the loop; when the parameter manifest had no committee group, that manifest is not signed by it, while the copy the loop keeps is |
| `NnsUpdate.UpdateAsWrittenDiffersOnlyInManifest` | pkg/morph/deploy/nns.go:341-349 | the as-written and the corrected iteration reach the same state and the same decision, except that the update call carries `jLocalManifest` instead of the signed manifest |
| `NnsUpdate.UpdateGuardsWindow` | pkg/morph/deploy/nns.go:357-396 | the update loop keeps the window discipline of `Loops.GuardsWindow` over `updateTxValidUntilBlock` |
| `NnsUpdate.UpdateNoDuplicateNotarize` | pkg/morph/deploy/nns.go:357-396 | after a `Notarize` accepted with valid-until block v > 0, the next `Notarize` happens at a height above v |
| `NnsUpdate.UpdateCallbackOnEveryDeficiency` | pkg/morph/deploy/nns.go:369-393 | n iterations in a row that lack GAS give n `Notarize` attempts and n callback calls, each with `lackOfGAS` true, and record no window |
| `NnsUpdate.UpdateSameChecksumSendsNothing` | pkg/morph/deploy/nns.go:309-316 | equal NEF checksums end the loop at its first iteration with success, no call and an unchanged state |
| `NnsUpdate.UpdateAlreadyUpdatedSendsNothing` | pkg/morph/deploy/nns.go:348-356 | an "already updated" probe ends the loop with success, without `Notarize` and without the callback |

## Left out

- Goroutines, atomics, channels and the ticker period are replaced by explicit events and observations. Closing `chNewBlock` and `blockchainMonitor.stop` (unsubscribe and log) are not modelled.
- Logging through zap is not modelled, and neither are timeouts.
- NEF binary encoding and manifest JSON encoding are not modelled: the NEF bytes are a parameter, and the manifest travels as a value.
- `actor.NewSimple`, `management.Deploy`, `MakeCall`, `Notarize`, `invoker.Call` and `unwrap.Item` are observations of the iteration, not code. Only their success, error and valid-until block are modelled.
- `readContractOnChainVersion`, `readContractLocalVersion`, `newCommitteeNotaryActor`, `buildVersionedExtraUpdateArgs`, `isErrNotEnoughGAS`, `isErrNotaryDepositExpires` and `contractVersion` are defined in files that are not part of this model. They are uninterpreted functions or observations.
- `common.ErrAlreadyUpdated` is defined in the contracts repository, so its text is a parameter.
- The texts of the stack-item conversion error and of stack-item type names are stand-ins.
- `Util.ReadContractOnChainStateByDomainName`: a failed read is wrapped as "get contract by address" without the `=<addr>` that `util.go:237` formats into the text, because `Uint160`'s string form is defined in neo-go, which is not part of this model.
- `NnsUpdate.UpdateNNSContract.Step`: the update call sends the manifest signed in this iteration, where the code sends `jLocalManifest`, encoded from the parameter manifest before the loop (`nns.go:273`, `nns.go:348-349`). The model follows the evidently intended behaviour, and `NnsUpdate.UpdateStepAsWritten` is the iteration as written, and `NnsUpdate.UpdateAsWrittenDropsCommitteeGroup` states what it sends.
- `NnsUpdate.UpdateNNSContract.Run`: for the same reason, every update call of the modelled loop carries the signed manifest instead of `jLocalManifest`.
- `NnsInit.InitStep`: when `initCommitteeGroupKey` returns a key together with an error, the model drops the key. The Go code would keep it in `committeeGroupKey` and skip the constructor afterwards.
- `Util.SetGroupInManifest`: the Go code writes through a pointer and can alias the caller's group slice. The model returns the new manifest, and the loop classes store it back.
- The loops are run over a finite sequence of observations. Non-termination (no block ever arrives, the contract never appears) is not modelled.
- `methodNNSRegister`, `methodNNSAddRecord`, `methodNNSSetRecord` and the default domain settings (`nns.go:42-56`) are declared but not used by the modelled functions.

## Findings

| source | as written | input that shows it | evidently intended | confidence | as-written member | corrected member |
|---|---|---|---|---|---|---|
| pkg/morph/deploy/nns.go:273-349 | the manifest is JSON-encoded into `jLocalManifest` before the loop; `setGroupInManifest` then signs `prm.localManifest`, but `MakeCall` sends the old `jLocalManifest` | a parameter manifest with no group for the committee key: the update transaction goes out without the committee group, on every iteration | the update carries the manifest extended with the committee group, as the function's comment says | medium, not executed | `NnsUpdate.UpdateAsWrittenDropsCommitteeGroup` | `NnsUpdate.UpdateSubmitsSignedManifest` |
