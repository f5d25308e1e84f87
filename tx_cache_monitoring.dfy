/** Monitoring of the pending-transaction cache: the four counters of
    transactions added and removed (between two selections, and while an
    eviction is in progress), their resets at the end of an eviction or a
    selection, the eviction journal and the consistency verdict of `diagnose`.

    The counters are Go atomic 64-bit counters; an increment wraps around
    modulo 2^64 like `atomic.AddInt64`. */
module TxCacheMonitoring {
  import opened Common

  /** A short record of the last eviction: whether it ran, and what each of
      its two passes removed. */
  datatype EvictionJournal = EvictionJournal(
    evictionPerformed: bool,
    passOneNumTxs: Uint32,
    passOneNumSenders: Uint32,
    passTwoNumTxs: Uint32,
    passTwoNumSenders: Uint32,
    passTwoNumSteps: Uint32)

  /** The monitoring counters of the cache. */
  datatype Counters = Counters(
    numTxAddedBetweenSelections: Int64,
    numTxRemovedBetweenSelections: Int64,
    numTxAddedDuringEviction: Int64,
    numTxRemovedDuringEviction: Int64)

  const ZERO: Counters := Counters(0, 0, 0, 0)

  /** What the monitor is told about: an addition or a removal (with the
      eviction flag as it was at that moment), or the end of an eviction or
      of a selection. */
  datatype Event = TxAdded(duringEviction: bool) | TxRemoved(duringEviction: bool) | EvictionEnded | SelectionEnded

  /** `monitorTxAddition`, `monitorTxRemoval`, and the resets of
      `monitorEvictionEnd` and `monitorSelectionEnd`, on the counters. */
  function Step(c: Counters, e: Event): (r: Counters)
    ensures e.TxAdded? ==>
      (r.numTxRemovedBetweenSelections == c.numTxRemovedBetweenSelections &&
       r.numTxRemovedDuringEviction == c.numTxRemovedDuringEviction)
    ensures e.TxRemoved? ==>
      (r.numTxAddedBetweenSelections == c.numTxAddedBetweenSelections &&
       r.numTxAddedDuringEviction == c.numTxAddedDuringEviction)
    ensures e.EvictionEnded? ==>
      (r.numTxAddedDuringEviction == 0 && r.numTxRemovedDuringEviction == 0 &&
       r.numTxAddedBetweenSelections == c.numTxAddedBetweenSelections &&
       r.numTxRemovedBetweenSelections == c.numTxRemovedBetweenSelections)
    ensures e.SelectionEnded? ==>
      (r.numTxAddedBetweenSelections == 0 && r.numTxRemovedBetweenSelections == 0 &&
       r.numTxAddedDuringEviction == c.numTxAddedDuringEviction &&
       r.numTxRemovedDuringEviction == c.numTxRemovedDuringEviction)
    ensures e.TxAdded? && c.numTxAddedBetweenSelections < TWO_63 - 1 ==>
      r.numTxAddedBetweenSelections == c.numTxAddedBetweenSelections + 1
    ensures e.TxAdded? && c.numTxAddedDuringEviction < TWO_63 - 1 ==>
      (r.numTxAddedDuringEviction == c.numTxAddedDuringEviction + 1 <==> e.duringEviction) &&
      (r.numTxAddedDuringEviction == c.numTxAddedDuringEviction <==> !e.duringEviction)
    ensures e.TxRemoved? && c.numTxRemovedBetweenSelections < TWO_63 - 1 ==>
      r.numTxRemovedBetweenSelections == c.numTxRemovedBetweenSelections + 1
    ensures e.TxRemoved? && c.numTxRemovedDuringEviction < TWO_63 - 1 ==>
      (r.numTxRemovedDuringEviction == c.numTxRemovedDuringEviction + 1 <==> e.duringEviction) &&
      (r.numTxRemovedDuringEviction == c.numTxRemovedDuringEviction <==> !e.duringEviction)
  {
    match e
    case TxAdded(evicting) =>
      c.(numTxAddedBetweenSelections := AddInt64(c.numTxAddedBetweenSelections, 1),
         numTxAddedDuringEviction :=
           if evicting then AddInt64(c.numTxAddedDuringEviction, 1) else c.numTxAddedDuringEviction)
    case TxRemoved(evicting) =>
      c.(numTxRemovedBetweenSelections := AddInt64(c.numTxRemovedBetweenSelections, 1),
         numTxRemovedDuringEviction :=
           if evicting then AddInt64(c.numTxRemovedDuringEviction, 1) else c.numTxRemovedDuringEviction)
    case EvictionEnded =>
      c.(numTxAddedDuringEviction := 0, numTxRemovedDuringEviction := 0)
    case SelectionEnded =>
      c.(numTxAddedBetweenSelections := 0, numTxRemovedBetweenSelections := 0)
  }

  /** The counters after a sequence of events. */
  function Run(c: Counters, events: seq<Event>): Counters
    decreases |events|
  {
    if events == [] then c else Step(Run(c, events[..|events| - 1]), events[|events| - 1])
  }

  /** How many events since the last event `reset` satisfy `counted`. */
  function CountSince(events: seq<Event>, counted: Event -> bool, reset: Event): (n: nat)
    ensures n <= |events|
    decreases |events|
  {
    if events == [] then 0
    else
      var last := events[|events| - 1];
      if last == reset then 0
      else CountSince(events[..|events| - 1], counted, reset) + (if counted(last) then 1 else 0)
  }

  predicate IsAddition(e: Event) { e.TxAdded? }
  predicate IsRemoval(e: Event) { e.TxRemoved? }
  predicate IsAdditionDuringEviction(e: Event) { e == TxAdded(true) }
  predicate IsRemovalDuringEviction(e: Event) { e == TxRemoved(true) }

  /** Starting from zero, and before any counter can wrap, each counter holds
      exactly the number of its events since its own last reset: additions
      and removals since the last selection ended, and those that happened
      during an eviction since the last eviction ended. */
  lemma {:induction false} RunCounts(events: seq<Event>)
    requires |events| < TWO_63
    ensures Run(ZERO, events).numTxAddedBetweenSelections == CountSince(events, IsAddition, SelectionEnded)
    ensures Run(ZERO, events).numTxRemovedBetweenSelections == CountSince(events, IsRemoval, SelectionEnded)
    ensures Run(ZERO, events).numTxAddedDuringEviction == CountSince(events, IsAdditionDuringEviction, EvictionEnded)
    ensures Run(ZERO, events).numTxRemovedDuringEviction == CountSince(events, IsRemovalDuringEviction, EvictionEnded)
    decreases |events|
  {
    if events != [] {
      var init := events[..|events| - 1];
      RunCounts(init);
    }
  }

  /** The counts `diagnose` compares. The sender estimate is the aggregate
      sender counter; the other sender counts come from the by-sender map,
      the transaction counts from the by-hash map. */
  datatype DiagnoseCounts = DiagnoseCounts(
    countSenders: Int64,
    numSendersInChunks: Uint32,
    numSendersInScoreChunks: Uint32,
    numSendersKeys: nat,
    numSendersKeysSorted: nat,
    numSendersSnapshot: nat,
    numTxsEstimate: Int64,
    numTxsInChunks: int,
    numTxsKeys: nat)

  /** Go's `uint32(x)` on a 64-bit integer: its low 32 bits. */
  function ToUint32(x: Int64): (r: Uint32)
    ensures 0 <= x < TWO_32 ==> r == x
    ensures (r - x) % TWO_32 == 0
  {
    x % TWO_32
  }

  /** The `fine` verdict of `diagnose`. While the sender counter fits 32
      bits, the cache is reported fine exactly when every sender count agrees
      with it and every transaction count agrees with the transaction counter. */
  function Fine(d: DiagnoseCounts): (fine: bool)
    ensures fine ==> d.numSendersKeys == d.numSendersKeysSorted == d.numSendersSnapshot
    ensures fine ==> d.numTxsEstimate == d.numTxsInChunks == d.numTxsKeys
    ensures 0 <= d.countSenders < TWO_32 ==>
      (fine <==>
        d.countSenders == d.numSendersInChunks == d.numSendersInScoreChunks
          == d.numSendersKeys == d.numSendersKeysSorted == d.numSendersSnapshot &&
        d.numTxsEstimate == d.numTxsInChunks == d.numTxsKeys)
  {
    var numSendersEstimate := ToUint32(d.countSenders);
    var fine := numSendersEstimate == d.numSendersInChunks && numSendersEstimate == d.numSendersInScoreChunks;
    var fine := fine && d.numSendersKeys == d.numSendersKeysSorted && d.numSendersKeys == d.numSendersSnapshot;
    var fine := fine && numSendersEstimate == d.numSendersKeys;
    fine && d.numTxsEstimate == d.numTxsInChunks && d.numTxsEstimate == d.numTxsKeys
  }

  /** Beyond 32 bits the estimate is truncated: a sender counter of exactly
      2^32 over an empty by-sender map is reported fine. */
  lemma FineTruncatesSenderCount()
    ensures Fine(DiagnoseCounts(TWO_32, 0, 0, 0, 0, 0, 0, 0, 0))
  {
  }

  class TxCache {
    var numTxAddedBetweenSelections: Int64
    var numTxRemovedBetweenSelections: Int64
    var numTxAddedDuringEviction: Int64
    var numTxRemovedDuringEviction: Int64
    var isEvictionInProgress: bool
    var evictionJournal: EvictionJournal

    function CountersOf(): Counters
      reads this
    {
      Counters(numTxAddedBetweenSelections, numTxRemovedBetweenSelections,
               numTxAddedDuringEviction, numTxRemovedDuringEviction)
    }

    constructor()
      ensures CountersOf() == ZERO && !isEvictionInProgress
      ensures evictionJournal == EvictionJournal(false, 0, 0, 0, 0, 0)
    {
      numTxAddedBetweenSelections := 0;
      numTxRemovedBetweenSelections := 0;
      numTxAddedDuringEviction := 0;
      numTxRemovedDuringEviction := 0;
      isEvictionInProgress := false;
      evictionJournal := EvictionJournal(false, 0, 0, 0, 0, 0);
    }

    /** `monitorTxAddition`. */
    method MonitorTxAddition()
      modifies this
      ensures CountersOf() == Step(old(CountersOf()), TxAdded(old(isEvictionInProgress)))
      ensures isEvictionInProgress == old(isEvictionInProgress) && evictionJournal == old(evictionJournal)
    {
      numTxAddedBetweenSelections := AddInt64(numTxAddedBetweenSelections, 1);
      if isEvictionInProgress {
        numTxAddedDuringEviction := AddInt64(numTxAddedDuringEviction, 1);
      }
    }

    /** `monitorTxRemoval`. */
    method MonitorTxRemoval()
      modifies this
      ensures CountersOf() == Step(old(CountersOf()), TxRemoved(old(isEvictionInProgress)))
      ensures isEvictionInProgress == old(isEvictionInProgress) && evictionJournal == old(evictionJournal)
    {
      numTxRemovedBetweenSelections := AddInt64(numTxRemovedBetweenSelections, 1);
      if isEvictionInProgress {
        numTxRemovedDuringEviction := AddInt64(numTxRemovedDuringEviction, 1);
      }
    }

    /** The counter resets of `monitorEvictionEnd`: it reads and clears the
        during-eviction counters. */
    method MonitorEvictionEnd() returns (numTxAdded: Int64, numTxRemoved: Int64)
      modifies this
      ensures numTxAdded == old(numTxAddedDuringEviction) && numTxRemoved == old(numTxRemovedDuringEviction)
      ensures CountersOf() == Step(old(CountersOf()), EvictionEnded)
      ensures isEvictionInProgress == old(isEvictionInProgress) && evictionJournal == old(evictionJournal)
    {
      numTxAdded := numTxAddedDuringEviction;
      numTxAddedDuringEviction := 0;
      numTxRemoved := numTxRemovedDuringEviction;
      numTxRemovedDuringEviction := 0;
    }

    /** The counter resets of `monitorSelectionEnd`: it reads and clears the
        between-selection counters. */
    method MonitorSelectionEnd() returns (numTxAdded: Int64, numTxRemoved: Int64)
      modifies this
      ensures numTxAdded == old(numTxAddedBetweenSelections) && numTxRemoved == old(numTxRemovedBetweenSelections)
      ensures CountersOf() == Step(old(CountersOf()), SelectionEnded)
      ensures isEvictionInProgress == old(isEvictionInProgress) && evictionJournal == old(evictionJournal)
    {
      numTxAdded := numTxAddedBetweenSelections;
      numTxAddedBetweenSelections := 0;
      numTxRemoved := numTxRemovedBetweenSelections;
      numTxRemovedBetweenSelections := 0;
    }
  }
}
