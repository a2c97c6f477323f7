/**
 * NNS domain names of the bootstrap protocol and the lookup of the first
 * TXT record of a domain, as pkg/morph/deploy/nns.go defines them.
 */
module NnsNames {
  import opened Wrappers
  import opened GoErrors
  import opened Neo

  const DomainBootstrap: string := "bootstrap"
  const DomainDesignateNotaryPrefix: string := "designate-committee-notary-"
  const DomainDesignateNotaryTx: string := DomainDesignateNotaryPrefix + "tx." + DomainBootstrap
  const DomainContractAddresses: string := "neofs"
  /** The ".bootstrap" ending of every per-member domain. */
  const BootstrapSuffix: string := "." + DomainBootstrap

  const MethodNNSResolve: string := "resolve"
  /** nns.TXT, the record type asked for. */
  const RecordTypeTXT: int := 16

  const ErrMissingDomain: Error := Leaf(MissingDomain, "missing domain")
  const ErrMissingDomainRecord: Error := Leaf(MissingDomainRecord, "missing domain record")
  /** The conversion error of the stack-item library; its text is not part of this model. */
  const ErrInvalidConversion: Error := Leaf(Anonymous, "invalid conversion")

  predicate IsDigit(c: char)
  {
    '0' <= c <= '9'
  }

  function DigitChar(d: nat): (c: char)
    requires d < 10
    ensures IsDigit(c)
  {
    "0123456789"[d]
  }

  function DigitValue(c: char): nat
  {
    if IsDigit(c) then (c as int - '0' as int) else 0
  }

  /** The decimal digits of n, most significant first, without leading zeros. */
  function Decimal(n: nat): (s: string)
    ensures |s| >= 1
    ensures forall k :: 0 <= k < |s| ==> IsDigit(s[k])
  {
    if n < 10 then [DigitChar(n)] else Decimal(n / 10) + [DigitChar(n % 10)]
  }

  /** The value of a string of decimal digits. */
  function ParseDecimal(s: string): nat
  {
    if s == [] then 0 else ParseDecimal(s[..|s| - 1]) * 10 + DigitValue(s[|s| - 1])
  }

  /** fmt's %d verb on an int. */
  function FormatInt(i: int): string
  {
    if i < 0 then "-" + Decimal(-i) else Decimal(i)
  }

  lemma {:induction false} DecimalRoundTrip(n: nat)
    ensures ParseDecimal(Decimal(n)) == n
  {
    var s := Decimal(n);
    if n >= 10 {
      DecimalRoundTrip(n / 10);
      assert s[..|s| - 1] == Decimal(n / 10);
    }
    assert DigitValue(DigitChar(n % 10)) == n % 10;
  }

  /** A negative integer prints as a minus sign followed by the digits of its magnitude. */
  lemma FormatIntShape(i: int)
    ensures i < 0 ==> FormatInt(i)[0] == '-' && FormatInt(i)[1..] == Decimal(-i)
    ensures i >= 0 ==> FormatInt(i) == Decimal(i) && IsDigit(FormatInt(i)[0])
  {
  }

  lemma DecimalInjective(m: nat, n: nat)
    requires Decimal(m) == Decimal(n)
    ensures m == n
  {
    DecimalRoundTrip(m);
    DecimalRoundTrip(n);
  }

  /** Different integers print differently. */
  lemma FormatIntInjective(i: int, j: int)
    requires FormatInt(i) == FormatInt(j)
    ensures i == j
  {
    FormatIntShape(i);
    FormatIntShape(j);
    if i < 0 && j < 0 {
      DecimalInjective(-i, -j);
    } else if i >= 0 && j >= 0 {
      DecimalInjective(i, j);
    }
  }

  /** The same text around two middles yields equal strings only for equal middles. */
  lemma SameFrameSameMiddle(p: string, x: string, y: string, q: string)
    requires p + x + q == p + y + q
    ensures x == y
  {
    assert |x| == |y|;
    assert x == (p + x + q)[|p|..|p| + |x|];
    assert y == (p + y + q)[|p|..|p| + |y|];
  }

  /** The domain where committee member memberIndex publishes its signature of the notary designation. */
  function DesignateNotarySignatureDomainForMember(memberIndex: int): string
  {
    DomainDesignateNotaryPrefix + FormatInt(memberIndex) + BootstrapSuffix
  }

  /** The domain where committee member memberIndex publishes its share of the committee group key. */
  function CommitteeGroupDomainForMember(memberIndex: int): string
  {
    "committee-group-" + FormatInt(memberIndex) + BootstrapSuffix
  }

  lemma DomainConstants()
    ensures DomainDesignateNotaryTx == "designate-committee-notary-tx.bootstrap"
    ensures DesignateNotarySignatureDomainForMember(0) == "designate-committee-notary-0.bootstrap"
    ensures DesignateNotarySignatureDomainForMember(17) == "designate-committee-notary-17.bootstrap"
    ensures CommitteeGroupDomainForMember(3) == "committee-group-3.bootstrap"
  {
    assert Decimal(17) == Decimal(1) + [DigitChar(7)];
  }

  /** Every committee member has its own signature domain. */
  lemma DesignateNotaryDomainsDistinct(i: int, j: int)
    ensures DesignateNotarySignatureDomainForMember(i) == DesignateNotarySignatureDomainForMember(j) <==> i == j
  {
    if DesignateNotarySignatureDomainForMember(i) == DesignateNotarySignatureDomainForMember(j) {
      SameFrameSameMiddle(DomainDesignateNotaryPrefix, FormatInt(i), FormatInt(j), BootstrapSuffix);
      FormatIntInjective(i, j);
    }
  }

  /** Every committee member has its own group-key domain. */
  lemma CommitteeGroupDomainsDistinct(i: int, j: int)
    ensures CommitteeGroupDomainForMember(i) == CommitteeGroupDomainForMember(j) <==> i == j
  {
    if CommitteeGroupDomainForMember(i) == CommitteeGroupDomainForMember(j) {
      SameFrameSameMiddle("committee-group-", FormatInt(i), FormatInt(j), BootstrapSuffix);
      FormatIntInjective(i, j);
    }
  }

  /** The transaction domain shares the member prefix yet is no member's signature domain. */
  lemma TxDomainIsNoMemberDomain(i: int)
    ensures DesignateNotarySignatureDomainForMember(i) != DomainDesignateNotaryTx
  {
    var k := |DomainDesignateNotaryPrefix|;
    assert DomainDesignateNotaryTx[k] == 't';
    assert DesignateNotarySignatureDomainForMember(i)[k] == FormatInt(i)[0];
  }

  /** Items of a stack item whose Value() is []stackitem.Item. */
  predicate IsItemList(item: StackItem)
  {
    item.Array? || item.Struct?
  }

  function ItemList(item: StackItem): seq<StackItem>
    requires IsItemList(item)
  {
    if item.Array? then item.items else item.fields
  }

  /** Item.TryBytes */
  function TryBytes(item: StackItem): Result<string, Error>
  {
    if item.ByteString? then Success(item.data) else Failure(ErrInvalidConversion)
  }

  /** Item.Type().String() for the kinds that can reach the malformed-response error. */
  function TypeName(item: StackItem): string
  {
    match item
    case Null => "Any"
    case Array(_) => "Array"
    case Struct(_) => "Struct"
    case ByteString(_) => "ByteString"
    case Other(t) => t
  }

  /**
   * lookupNNSDomainRecord: classifies the answer of the NNS 'resolve' call
   * for a TXT record. call is what invoker.Call followed by unwrap.Item
   * returned.
   */
  function LookupNNSDomainRecordResponse(call: Result<StackItem, Error>): (r: Result<string, Error>)
    // a call error mentioning "token not found" means the domain is missing, and nothing else does
    ensures r == Failure(ErrMissingDomain) <==> call.Failure? && Contains(Text(call.error), "token not found")
    // any other call error is returned wrapped, keeping the original below
    ensures call.Failure? && !Contains(Text(call.error), "token not found") ==>
              r.Failure? && r.error.Wrapped? && r.error.cause == call.error
    // a Null answer or an empty list means the domain has no record
    ensures r == Failure(ErrMissingDomainRecord) <==>
              call.Success? && (call.value.Null? || (IsItemList(call.value) && ItemList(call.value) == []))
    // an answer that is neither a list nor Null is a malformed response
    ensures call.Success? && !call.value.Null? && !IsItemList(call.value) ==>
              r.Failure? && r.error.Leaf? && !Is(r.error, MissingDomain) && !Is(r.error, MissingDomainRecord)
    // a first list item that is not a byte string is a malformed response, wrapping the conversion error
    ensures call.Success? && IsItemList(call.value) && ItemList(call.value) != [] && !ItemList(call.value)[0].ByteString? ==>
              r.Failure? && r.error.Wrapped? && r.error.cause == ErrInvalidConversion &&
              !Is(r.error, MissingDomain) && !Is(r.error, MissingDomainRecord)
    // the record is the bytes of the first list item, and nothing else is a record
    ensures r.Success? <==>
              call.Success? && IsItemList(call.value) && ItemList(call.value) != [] && ItemList(call.value)[0].ByteString?
    ensures r.Success? ==> r.value == ItemList(call.value)[0].data
  {
    match call
    case Failure(err) =>
      if Contains(Text(err), "token not found") then Failure(ErrMissingDomain)
      else Failure(Wrap("call '" + MethodNNSResolve + "' method of the NNS contract", err))
    case Success(item) =>
      if !IsItemList(item) then
        if item.Null? then Failure(ErrMissingDomainRecord)
        else Failure(Leaf(Anonymous, "malformed/unsupported response of the NNS '" + MethodNNSResolve
                                     + "' method: expected array, got " + TypeName(item)))
      else if |ItemList(item)| > 0 then
        match TryBytes(ItemList(item)[0])
        case Success(b) => Success(b)
        case Failure(e) =>
          Failure(Wrap("malformed/unsupported 1st array item of the NNS '" + MethodNNSResolve
                       + "' method response (expected ByteString)", e))
      else Failure(ErrMissingDomainRecord)
  }

  /** lookupNNSDomainRecord(inv, nnsContract, domainName): resolves the TXT record through the chain's invoker. */
  function LookupNNSDomainRecord(b: Blockchain, nnsContract: Uint160, domainName: string): Result<string, Error>
  {
    LookupNNSDomainRecordResponse(b.invoke(nnsContract, MethodNNSResolve, [StringParam(domainName), IntParam(RecordTypeTXT)]))
  }
}
