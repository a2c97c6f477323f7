/**
 * The two small monitors of pkg/morph/deploy/util.go. Their goroutines
 * become explicit events: a block delivered by the subscription, a tick of
 * the polling timer, the end of the context, the return of WaitAny.
 */
module Monitors {
  import opened Wrappers
  import opened GoErrors
  import opened Neo

  /** What happens while waitForNextBlock polls, in the order it happens. */
  datatype WaitEvent =
    | Tick                       // the ticker fires: the stored height is compared
    | BlockArrived(index: u32)   // the subscription goroutine stores a block's index
    | ContextDone                // ctx.Done() is selected

  datatype WaitOutcome = NewBlockSeen | Cancelled | StillWaiting

  /** The stored height after the events: the index of the last block that arrived, whatever it is, or h. */
  function HeightAfter(h: u32, events: seq<WaitEvent>): u32
  {
    if events == [] then h
    else
      match events[|events| - 1]
      case BlockArrived(i) => i
      case _ => HeightAfter(h, events[..|events| - 1])
  }

  predicate BlockIn(events: seq<WaitEvent>)
  {
    exists k :: 0 <= k < |events| && events[k].BlockArrived?
  }

  /** The wait that started at height h0 ends with the last of these events. */
  predicate EndsWait(h0: u32, events: seq<WaitEvent>)
  {
    events != [] &&
    (events[|events| - 1] == ContextDone ||
     (events[|events| - 1] == Tick && HeightAfter(h0, events) > h0))
  }

  /** blockchainMonitor */
  class BlockchainMonitor {
    const blockIntervalMs: nat
    const subID: string
    var height: u32
    /** chNewBlock as a single-slot signal: a send when the slot is full is dropped. */
    var newBlockSignal: bool

    constructor (blockIntervalMs: nat, subID: string, initialBlock: u32)
      ensures this.blockIntervalMs == blockIntervalMs && this.subID == subID
      ensures height == initialBlock && !newBlockSignal
    {
      this.blockIntervalMs := blockIntervalMs;
      this.subID := subID;
      height := initialBlock;
      newBlockSignal := false;
    }

    /**
     * newBlockchainMonitor: fails, wrapping the cause, when the protocol
     * configuration, the block count or the subscription cannot be obtained,
     * in that order; otherwise the monitor starts at the block count.
     */
    static method Start(msPerBlock: Result<nat, Error>, blockCount: Result<u32, Error>, subscription: Result<string, Error>)
      returns (r: Result<BlockchainMonitor, Error>)
      ensures msPerBlock.Failure? ==> r == Failure(Wrap("request Neo protocol configuration", msPerBlock.error))
      ensures msPerBlock.Success? && blockCount.Failure? ==>
                r == Failure(Wrap("get current blockchain height", blockCount.error))
      ensures msPerBlock.Success? && blockCount.Success? && subscription.Failure? ==>
                r == Failure(Wrap("subscribe to new blocks of the chain", subscription.error))
      ensures r.Success? <==> msPerBlock.Success? && blockCount.Success? && subscription.Success?
      ensures r.Success? ==> fresh(r.value) && r.value.height == blockCount.value && !r.value.newBlockSignal
                             && r.value.blockIntervalMs == msPerBlock.value && r.value.subID == subscription.value
    {
      if msPerBlock.Failure? {
        return Failure(Wrap("request Neo protocol configuration", msPerBlock.error));
      }
      if blockCount.Failure? {
        return Failure(Wrap("get current blockchain height", blockCount.error));
      }
      if subscription.Failure? {
        return Failure(Wrap("subscribe to new blocks of the chain", subscription.error));
      }
      var m := new BlockchainMonitor(msPerBlock.value, subscription.value, blockCount.value);
      r := Success(m);
    }

    /** A block arrives on the subscription: its index is stored unconditionally and the signal is offered. */
    method OnBlock(index: u32)
      modifies this
      ensures height == index && newBlockSignal
    {
      height := index;
      newBlockSignal := true;
    }

    /** currentHeight */
    function CurrentHeight(): u32
      reads this
    {
      height
    }

    /**
     * waitForNextBlock: polls the stored height on every tick and returns
     * once it exceeds the height seen at the call, or when the context is
     * done. The events say what happened meanwhile; StillWaiting means they
     * ran out first.
     */
    method WaitForNextBlock(events: seq<WaitEvent>) returns (consumed: nat, outcome: WaitOutcome)
      modifies this
      ensures consumed <= |events|
      ensures height == HeightAfter(old(height), events[..consumed])
      ensures newBlockSignal == (old(newBlockSignal) || BlockIn(events[..consumed]))
      ensures outcome != StillWaiting <==> EndsWait(old(height), events[..consumed])
      ensures outcome == NewBlockSeen ==> events[consumed - 1] == Tick && height > old(height)
      ensures outcome == Cancelled ==> events[consumed - 1] == ContextDone
      ensures outcome == StillWaiting ==> consumed == |events|
      ensures forall k :: 0 < k < consumed ==> !EndsWait(old(height), events[..k])
    {
      var initialBlock := CurrentHeight();
      consumed := 0;
      while consumed < |events|
        invariant consumed <= |events|
        invariant height == HeightAfter(initialBlock, events[..consumed])
        invariant newBlockSignal == (old(newBlockSignal) || BlockIn(events[..consumed]))
        invariant forall k :: 0 < k <= consumed ==> !EndsWait(initialBlock, events[..k])
      {
        var e := events[consumed];
        assert events[..consumed + 1][..consumed] == events[..consumed];
        consumed := consumed + 1;
        match e
        case BlockArrived(i) =>
          OnBlock(i);
          assert events[..consumed][consumed - 1].BlockArrived?;
        case ContextDone =>
          outcome := Cancelled;
          return;
        case Tick =>
          if height > initialBlock {
            outcome := NewBlockSeen;
            return;
          }
      }
      outcome := StillWaiting;
    }
  }

  /** The stored height follows whatever index arrives last, so it can go down. */
  lemma HeightFollowsLastBlock()
    ensures HeightAfter(7, [BlockArrived(9), Tick, BlockArrived(5)]) == 5
  {
  }

  /**
   * The stored height is the index of the last block that arrived, or the
   * height before the events when none arrived.
   */
  lemma {:induction false} HeightIsLastStoredIndex(h: u32, events: seq<WaitEvent>)
    ensures !BlockIn(events) ==> HeightAfter(h, events) == h
    ensures forall k :: 0 <= k < |events| && events[k].BlockArrived? && !BlockIn(events[k + 1..]) ==>
              HeightAfter(h, events) == events[k].index
  {
    if events != [] {
      var n := |events| - 1;
      var init := events[..n];
      HeightIsLastStoredIndex(h, init);
      if events[n].BlockArrived? {
        forall k | 0 <= k < n && events[k].BlockArrived?
          ensures BlockIn(events[k + 1..])
        {
          assert events[k + 1..][n - k - 1] == events[n];
        }
      } else {
        if BlockIn(events) {
          var j :| 0 <= j < |events| && events[j].BlockArrived?;
          assert init[j].BlockArrived?;
        }
        forall k | 0 <= k < n && events[k].BlockArrived? && !BlockIn(events[k + 1..])
          ensures !BlockIn(init[k + 1..])
        {
          var quiet, rest := init[k + 1..], events[k + 1..];
          forall j | 0 <= j < |quiet|
            ensures !quiet[j].BlockArrived?
          {
            assert quiet[j] == rest[j];
          }
        }
      }
    }
  }

  /** transactionGroupMonitor */
  class TransactionGroupMonitor {
    var pending: bool

    /** newTransactionGroupMonitor: nothing is pending. */
    constructor ()
      ensures !pending
    {
      pending := false;
    }

    /** reset */
    method Reset()
      modifies this
      ensures !pending
    {
      pending := false;
    }

    /** isPending */
    function IsPending(): bool
      reads this
    {
      pending
    }

    /**
     * trackPendingTransactionsAsync: an empty hash list is a programming error
     * (the Go code panics); the monitor is pending when the call returns.
     */
    method TrackPendingTransactionsAsync(vub: u32, txs: seq<Uint256>)
      requires |txs| > 0
      modifies this
      ensures pending
    {
      pending := true;
    }

    /** The tracking goroutine after WaitAny returns, whatever it returned: it resets the monitor. */
    method OnWaitAnyReturned()
      modifies this
      ensures !pending
    {
      Reset();
    }
  }
}
