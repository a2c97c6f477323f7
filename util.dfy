/**
 * The pure and in-place helpers of pkg/morph/deploy/util.go: error-text
 * checks, co-signing of the manifest by the committee group, and the two
 * readers of on-chain contract state.
 */
module Util {
  import opened Wrappers
  import opened GoErrors
  import opened Neo
  import opened NnsNames

  /** isErrContractAlreadyUpdated; errAlreadyUpdated is common.ErrAlreadyUpdated of the contracts repository. */
  predicate IsErrContractAlreadyUpdated(err: Error, errAlreadyUpdated: string)
  {
    Contains(Text(err), errAlreadyUpdated)
  }

  /** isErrTLDNotFound */
  predicate IsErrTLDNotFound(err: Error)
  {
    Contains(Text(err), "TLD not found")
  }

  /** Both checks look at the text, so they see through any fmt.Errorf wrapping around the error. */
  lemma ErrorChecksSeeThroughWrapping(err: Error, before: string, after: string, errAlreadyUpdated: string)
    ensures IsErrContractAlreadyUpdated(err, errAlreadyUpdated) ==>
              IsErrContractAlreadyUpdated(Wrapped(before, err, after), errAlreadyUpdated)
    ensures IsErrTLDNotFound(err) ==> IsErrTLDNotFound(Wrapped(before, err, after))
  {
    if IsErrContractAlreadyUpdated(err, errAlreadyUpdated) {
      ContainsSurvivesWrapping(before, err, after, errAlreadyUpdated);
    }
    if IsErrTLDNotFound(err) {
      ContainsSurvivesWrapping(before, err, after, "TLD not found");
    }
  }

  // ---------------------------------------------------------------------
  // setGroupInManifest
  // ---------------------------------------------------------------------

  /** The index of the first group whose public key is key, or -1. */
  function GroupIndex(groups: seq<Group>, key: PublicKey): (r: int)
    ensures -1 <= r < |groups|
    ensures r >= 0 ==> groups[r].publicKey == key
    ensures forall j :: 0 <= j < |groups| && (r < 0 || j < r) ==> groups[j].publicKey != key
  {
    if groups == [] then -1
    else if groups[0].publicKey == key then 0
    else
      var t := GroupIndex(groups[1..], key);
      if t < 0 then -1 else t + 1
  }

  /**
   * The group list after signing with key: the first entry for key gets the
   * signature, or, with no entry for key, one entry is appended.
   */
  function WithGroup(groups: seq<Group>, key: PublicKey, sig: Signature): (r: seq<Group>)
    ensures GroupIndex(groups, key) >= 0 ==>
              var i := GroupIndex(groups, key);
              |r| == |groups| && r[i] == Group(key, sig) &&
              forall j :: 0 <= j < |groups| && j != i ==> r[j] == groups[j]
    ensures GroupIndex(groups, key) < 0 ==> r == groups + [Group(key, sig)]
  {
    var i := GroupIndex(groups, key);
    if i >= 0 then groups[i := groups[i].(signature := sig)] else groups + [Group(key, sig)]
  }

  /** The signature of the committee group over the address the contract gets when deployerAcc deploys it. */
  function GroupSignature(crypto: Crypto, manif: Manifest, nefFile: Nef, groupPrivKey: PrivateKey, deployerAcc: Uint160): Signature
  {
    crypto.sign(groupPrivKey, crypto.createContractHash(deployerAcc, nefFile.checksum, manif.name))
  }

  /** The manifest setGroupInManifest leaves behind. */
  function SetGroup(crypto: Crypto, manif: Manifest, nefFile: Nef, groupPrivKey: PrivateKey, deployerAcc: Uint160): Manifest
  {
    manif.(groups := WithGroup(manif.groups, crypto.publicKey(groupPrivKey),
                               GroupSignature(crypto, manif, nefFile, groupPrivKey, deployerAcc)))
  }

  /**
   * setGroupInManifest: searches the groups for the key of groupPrivKey and
   * replaces that entry's signature, or appends a new entry. The Go code
   * writes through a pointer; here the caller stores the returned manifest
   * back.
   */
  method SetGroupInManifest(crypto: Crypto, manif: Manifest, nefFile: Nef, groupPrivKey: PrivateKey, deployerAcc: Uint160)
    returns (updated: Manifest)
    ensures updated == SetGroup(crypto, manif, nefFile, groupPrivKey, deployerAcc)
  {
    var contractAddress := crypto.createContractHash(deployerAcc, nefFile.checksum, manif.name);
    var sig := crypto.sign(groupPrivKey, contractAddress);
    var groupPubKey := crypto.publicKey(groupPrivKey);
    var groups := manif.groups;

    var ind := -1;
    var i := 0;
    while i < |groups|
      invariant 0 <= i <= |groups|
      invariant forall j :: 0 <= j < i ==> groups[j].publicKey != groupPubKey
    {
      if groups[i].publicKey == groupPubKey {
        ind := i;
        break;
      }
      i := i + 1;
    }
    assert ind == GroupIndex(groups, groupPubKey);

    if ind >= 0 {
      groups := groups[ind := groups[ind].(signature := sig)];
      updated := manif.(groups := groups);
      return;
    }

    updated := manif.(groups := groups + [Group(groupPubKey, sig)]);
  }

  /** No two entries share a public key (the manifest invariant of groups). */
  predicate KeysUnique(groups: seq<Group>)
  {
    forall i, j :: 0 <= i < j < |groups| ==> groups[i].publicKey != groups[j].publicKey
  }

  /** After signing, the key is found and carries the new signature; a second signing with the key does not grow the list. */
  lemma {:induction false} WithGroupFindsKey(groups: seq<Group>, key: PublicKey, sig: Signature, sig2: Signature)
    ensures var r := WithGroup(groups, key, sig);
            GroupIndex(r, key) >= 0 && r[GroupIndex(r, key)].signature == sig &&
            |WithGroup(r, key, sig2)| == |r|
  {
    var r := WithGroup(groups, key, sig);
    var i := GroupIndex(groups, key);
    if i >= 0 {
      assert r[i].publicKey == key;
      assert forall j :: 0 <= j < i ==> r[j] == groups[j];
      assert GroupIndex(r, key) == i;
    } else {
      assert r[|groups|].publicKey == key;
      assert forall j :: 0 <= j < |groups| ==> r[j] == groups[j];
      assert GroupIndex(r, key) == |groups|;
    }
  }

  /** Signing twice with the same key and signature leaves the group list as one signing does. */
  lemma WithGroupIdempotent(groups: seq<Group>, key: PublicKey, sig: Signature)
    ensures WithGroup(WithGroup(groups, key, sig), key, sig) == WithGroup(groups, key, sig)
  {
    var r := WithGroup(groups, key, sig);
    WithGroupFindsKey(groups, key, sig, sig);
    var k := GroupIndex(r, key);
    assert r[k] == Group(key, sig);
    assert r[k := r[k].(signature := sig)] == r;
  }

  /** Signing keeps every public key unique when they were unique before. */
  lemma WithGroupKeepsKeysUnique(groups: seq<Group>, key: PublicKey, sig: Signature)
    requires KeysUnique(groups)
    ensures KeysUnique(WithGroup(groups, key, sig))
  {
    var r := WithGroup(groups, key, sig);
    var i := GroupIndex(groups, key);
    assert forall j :: 0 <= j < |groups| ==> r[j].publicKey == groups[j].publicKey;
  }

  /**
   * setGroupInManifest run twice with the same inputs leaves the manifest as
   * one run does, and the manifest it leaves holds the committee group with
   * the signature over the contract address.
   */
  lemma SetGroupIdempotent(crypto: Crypto, manif: Manifest, nefFile: Nef, groupPrivKey: PrivateKey, deployerAcc: Uint160)
    ensures var m := SetGroup(crypto, manif, nefFile, groupPrivKey, deployerAcc);
            SetGroup(crypto, m, nefFile, groupPrivKey, deployerAcc) == m &&
            m.name == manif.name && m.rest == manif.rest &&
            var k := GroupIndex(m.groups, crypto.publicKey(groupPrivKey));
            k >= 0 && m.groups[k].signature ==
              crypto.sign(groupPrivKey, crypto.createContractHash(deployerAcc, nefFile.checksum, manif.name))
  {
    var key := crypto.publicKey(groupPrivKey);
    var sig := GroupSignature(crypto, manif, nefFile, groupPrivKey, deployerAcc);
    WithGroupIdempotent(manif.groups, key, sig);
    WithGroupFindsKey(manif.groups, key, sig, sig);
  }

  // ---------------------------------------------------------------------
  // readers of on-chain state
  // ---------------------------------------------------------------------

  /** The NNS contract always has ID 1 in the NeoFS sidechain. */
  const NnsContractID: int := 1

  /**
   * readNNSOnChainState: Success(None) when the chain does not know the
   * contract, a wrapped error on any other failure, the state otherwise.
   */
  function ReadNNSOnChainState(b: Blockchain): (r: Result<Option<ContractState>, Error>)
    ensures var q := b.contractStateByID(NnsContractID);
            && (r == Success(None) <==> q.Failure? && Is(q.error, UnknownContract))
            && (q.Success? <==> r.Success? && r.value.Some?)
            && (q.Success? ==> r.value.value == q.value)
            && (r.Failure? ==> q.Failure? && r.error.Wrapped? && r.error.cause == q.error
                                && !Is(r.error, UnknownContract))
  {
    match b.contractStateByID(NnsContractID)
    case Failure(err) =>
      if Is(err, UnknownContract) then Success(None)
      else Failure(Wrap("read contract state by ID=1", err))
    case Success(res) => Success(Some(res))
  }

  const ErrInvalidContractDomainRecord: Error := Leaf(InvalidContractDomainRecord, "invalid contract domain record")

  /** The address a domain record names: little-endian hex first, then a NEO address. */
  function DecodeContractAddress(codec: AddressCodec, rec: string): Option<Uint160>
  {
    match codec.decodeStringLE(rec)
    case Some(addr) => Some(addr)
    case None => codec.decodeAddress(rec)
  }

  /**
   * readContractOnChainStateByDomainName: looks up the first record of
   * domainName in the NNS, decodes it as a contract address and reads that
   * contract.
   */
  function ReadContractOnChainStateByDomainName(b: Blockchain, codec: AddressCodec, nnsContract: Uint160, domainName: string)
    : (r: Result<ContractState, Error>)
    // lookup errors come back as they are
    ensures var rec := LookupNNSDomainRecord(b, nnsContract, domainName);
            rec.Failure? ==> r == Failure(rec.error)
    // a record neither format accepts is an invalid-record error
    ensures var rec := LookupNNSDomainRecord(b, nnsContract, domainName);
            rec.Success? && DecodeContractAddress(codec, rec.value).None? ==>
              r.Failure? && Is(r.error, InvalidContractDomainRecord) && Contains(Text(r.error), rec.value)
    // a decoded record names the contract that is read, and a failed read is wrapped
    ensures var rec := LookupNNSDomainRecord(b, nnsContract, domainName);
            rec.Success? && DecodeContractAddress(codec, rec.value).Some? ==>
              var q := b.contractStateByHash(DecodeContractAddress(codec, rec.value).value);
              (q.Success? ==> r == q) &&
              (q.Failure? ==> r.Failure? && r.error.Wrapped? && r.error.cause == q.error)
  {
    match LookupNNSDomainRecord(b, nnsContract, domainName)
    case Failure(err) => Failure(err)
    case Success(rec) =>
      match DecodeContractAddress(codec, rec)
      case None => Failure(InvalidRecordError(rec))
      case Some(addr) =>
        match b.contractStateByHash(addr)
        case Failure(err) => Failure(Wrap("get contract by address", err))
        case Success(res) => Success(res)
  }

  /** The error for a record neither address format accepts: it is errInvalidContractDomainRecord and quotes the record. */
  function InvalidRecordError(rec: string): (e: Error)
    ensures Is(e, InvalidContractDomainRecord)
    ensures Contains(Text(e), rec)
  {
    var head := ": domain record '";
    var tail := "' neither NEO address nor little-endian hex-encoded script hash";
    var e := Wrapped("", ErrInvalidContractDomainRecord, head + rec + tail);
    var t := Text(e);
    var k := |Text(ErrInvalidContractDomainRecord)| + |head|;
    assert t == "" + Text(ErrInvalidContractDomainRecord) + (head + rec + tail);
    assert t[k..k + |rec|] == rec;
    assert OccursAt(t, rec, k);
    e
  }

  /**
   * The NEO-address decoder is consulted only when the little-endian hex
   * decoder rejects the record: with the same hex answer, what the address
   * decoder would say does not matter.
   */
  lemma HexRecordTakesPrecedence(b: Blockchain, c1: AddressCodec, c2: AddressCodec, nnsContract: Uint160, domainName: string)
    requires LookupNNSDomainRecord(b, nnsContract, domainName).Success?
    requires var rec := LookupNNSDomainRecord(b, nnsContract, domainName).value;
             c1.decodeStringLE(rec).Some? && c1.decodeStringLE(rec) == c2.decodeStringLE(rec)
    ensures ReadContractOnChainStateByDomainName(b, c1, nnsContract, domainName)
            == ReadContractOnChainStateByDomainName(b, c2, nnsContract, domainName)
  {
  }

  /**
   * Both historical record formats of one address lead to the same contract
   * read: a record in little-endian hex and a record in NEO-address form that
   * the hex decoder rejects resolve alike when they name the same address.
   */
  lemma RecordFormatsAgree(b: Blockchain, codec: AddressCodec, nnsContract: Uint160, d1: string, d2: string, addr: Uint160)
    requires LookupNNSDomainRecord(b, nnsContract, d1).Success?
    requires LookupNNSDomainRecord(b, nnsContract, d2).Success?
    requires codec.decodeStringLE(LookupNNSDomainRecord(b, nnsContract, d1).value) == Some(addr)
    requires codec.decodeStringLE(LookupNNSDomainRecord(b, nnsContract, d2).value).None?
    requires codec.decodeAddress(LookupNNSDomainRecord(b, nnsContract, d2).value) == Some(addr)
    ensures ReadContractOnChainStateByDomainName(b, codec, nnsContract, d1)
            == ReadContractOnChainStateByDomainName(b, codec, nnsContract, d2)
  {
  }
}
