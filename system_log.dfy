/**
 * The system log of both shell firmwares (shell-based-pico-os and
 * pico-shell-based-os carry the same log_message): 50 slots of at most 127
 * characters in a circular array, written at log_index, with log_count
 * saturating at 50. The two firmwares print the log back with different
 * formulas for the oldest slot; both are proved here to print the last
 * log_count messages in the order they were logged.
 */
module SystemLog {
  import opened CText

  const MAX_LOG_ENTRIES: int := 50
  /** Size of one slot; snprintf keeps at most this minus one characters. */
  const ENTRY_SIZE: int := 128

  /**
   * What log_message puts in front of a message: seconds since boot before
   * the clock is set, the local wall-clock time after. The conversion of
   * the clock to hours/minutes/seconds (localtime) is done by the caller.
   */
  datatype Stamp = Uptime(seconds: nat) | WallClock(hour: nat, minute: nat, second: nat)

  function StampText(stamp: Stamp): string {
    match stamp
    case Uptime(s) => "[+" + ZeroPadded(s, 5) + "s] "
    case WallClock(h, m, s) => "[" + ZeroPadded(h, 2) + ":" + ZeroPadded(m, 2) + ":" + ZeroPadded(s, 2) + "] "
  }

  /** The text of one slot: stamp and message, cut to fit the 128-byte slot. */
  function FormatEntry(stamp: Stamp, msg: string): (e: string)
    ensures |e| < ENTRY_SIZE
    ensures e <= StampText(stamp) + msg
    ensures |StampText(stamp) + msg| < ENTRY_SIZE ==> e == StampText(stamp) + msg
  {
    Take(StampText(stamp) + msg, ENTRY_SIZE - 1)
  }

  class Log {
    var entries: array<string>
    var logIndex: int
    var logCount: int
    /** Every entry ever written, oldest first. */
    ghost var history: seq<string>

    ghost predicate Valid()
      reads this
    {
      && entries.Length == MAX_LOG_ENTRIES
      && 0 <= logIndex < MAX_LOG_ENTRIES
      && logCount == Min(|history|, MAX_LOG_ENTRIES)
      && logIndex == |history| % MAX_LOG_ENTRIES
    }

    /** The slots hold the last logCount entries of the history. */
    ghost predicate SlotsHoldRecent()
      reads this, entries
      requires Valid()
    {
      RingHolds(entries[..], history)
    }

    /** What the log still holds: the most recent logCount entries. */
    ghost function Recent(): (r: seq<string>)
      reads this
      requires Valid()
      ensures |r| == logCount
    {
      history[|history| - logCount..]
    }

    constructor ()
      ensures Valid() && SlotsHoldRecent() && fresh(entries)
      ensures history == [] && logIndex == 0 && logCount == 0
    {
      entries := new string[MAX_LOG_ENTRIES](_ => "");
      logIndex, logCount := 0, 0;
      history := [];
    }

    /**
     * log_message: the new entry goes to the slot at the old logIndex, the
     * index advances modulo 50 and the count saturates at 50; no other slot
     * changes.
     */
    method LogMessage(stamp: Stamp, msg: string)
      requires Valid() && SlotsHoldRecent()
      modifies this, entries
      ensures Valid() && SlotsHoldRecent() && entries == old(entries)
      ensures history == old(history) + [FormatEntry(stamp, msg)]
      ensures entries[..] == old(entries[..])[old(logIndex) := FormatEntry(stamp, msg)]
      ensures logIndex == (old(logIndex) + 1) % MAX_LOG_ENTRIES
      ensures logCount == if old(logCount) < MAX_LOG_ENTRIES then old(logCount) + 1 else MAX_LOG_ENTRIES
    {
      var entry := FormatEntry(stamp, msg);
      var slot := logIndex;
      var nextIndex := (logIndex + 1) % MAX_LOG_ENTRIES;
      var nextCount := if logCount < MAX_LOG_ENTRIES then logCount + 1 else MAX_LOG_ENTRIES;
      ghost var slots := entries[..];
      ghost var h := history;
      RingStep(h, slots, slot, logCount, entry);
      entries[slot] := entry;
      assert entries[..] == slots[slot := entry];
      logIndex, logCount, history := nextIndex, nextCount, h + [entry];
    }

    /**
     * view_log of shell-based-pico-os: start at logIndex when the log is
     * full and at 0 otherwise, and print logCount entries.
     */
    method ViewLog() returns (lines: seq<string>)
      requires Valid() && SlotsHoldRecent()
      ensures lines == Recent()
    {
      var start := if logCount == MAX_LOG_ENTRIES then logIndex else 0;
      OldestSlot();
      lines := ReadFrom(start);
    }

    /**
     * view_log of pico-shell-based-os: start at
     * (logIndex - logCount + 50) % 50 and print logCount entries.
     */
    method ViewLogModular() returns (lines: seq<string>)
      requires Valid() && SlotsHoldRecent()
      ensures lines == Recent()
    {
      lines := [];
      if logCount != 0 {
        var start := (logIndex - logCount + MAX_LOG_ENTRIES) % MAX_LOG_ENTRIES;
        OldestSlot();
        lines := ReadFrom(start);
      }
    }

    /** The loop shared by both variants: logCount slots from `start` on. */
    method ReadFrom(start: int) returns (lines: seq<string>)
      requires Valid() && SlotsHoldRecent()
      requires 0 <= start < MAX_LOG_ENTRIES
      requires start == (|history| - logCount) % MAX_LOG_ENTRIES
      ensures lines == Recent()
    {
      lines := [];
      var i := 0;
      while i < logCount
        invariant 0 <= i <= logCount
        invariant lines == Recent()[..i]
      {
        var idx := (start + i) % MAX_LOG_ENTRIES;
        ShiftedSlot(|history| - logCount, i);
        assert entries[idx] == entries[..][(|history| - logCount + i) % MAX_LOG_ENTRIES];
        lines := lines + [entries[idx]];
        i := i + 1;
      }
    }

    /**
     * The oldest retained entry sits where view_log of shell-based-pico-os
     * starts, and where that of pico-shell-based-os starts.
     */
    lemma OldestSlot()
      requires Valid()
      ensures (|history| - logCount) % MAX_LOG_ENTRIES == (if logCount == MAX_LOG_ENTRIES then logIndex else 0)
      ensures (|history| - logCount) % MAX_LOG_ENTRIES == (logIndex - logCount + MAX_LOG_ENTRIES) % MAX_LOG_ENTRIES
      ensures logCount < MAX_LOG_ENTRIES ==> logIndex == logCount
    {
    }
  }

  /** The last min(|h|, 50) entries of h sit in the slots, entry j at slot j % 50. */
  ghost predicate RingHolds(slots: seq<string>, h: seq<string>) {
    |slots| == MAX_LOG_ENTRIES
    && forall j :: |h| - Min(|h|, MAX_LOG_ENTRIES) <= j < |h| ==> slots[j % MAX_LOG_ENTRIES] == h[j]
  }

  /** Index and count after n entries, advanced by one entry, are those after n + 1. */
  lemma CounterStep(n: nat, index: int, count: int)
    requires index == n % MAX_LOG_ENTRIES && count == Min(n, MAX_LOG_ENTRIES)
    ensures (index + 1) % MAX_LOG_ENTRIES == (n + 1) % MAX_LOG_ENTRIES
    ensures (if count < MAX_LOG_ENTRIES then count + 1 else MAX_LOG_ENTRIES) == Min(n + 1, MAX_LOG_ENTRIES)
  {
    ShiftedSlot(n, 1);
  }

  /** Counting i slots on from slot a % 50 reaches slot (a + i) % 50. */
  lemma ShiftedSlot(a: int, i: int)
    ensures (a % MAX_LOG_ENTRIES + i) % MAX_LOG_ENTRIES == (a + i) % MAX_LOG_ENTRIES
  {
    var q := a / MAX_LOG_ENTRIES;
    assert a % MAX_LOG_ENTRIES + i == (a + i) - q * MAX_LOG_ENTRIES;
  }

  /**
   * Writing the next entry at slot |h| % 50 keeps the last min(|h|+1, 50)
   * entries of the extended history in their slots.
   */
  lemma RingWrite(h: seq<string>, slots: seq<string>, entry: string)
    requires RingHolds(slots, h)
    ensures RingHolds(slots[|h| % MAX_LOG_ENTRIES := entry], h + [entry])
  {
    forall j | |h| + 1 - Min(|h| + 1, MAX_LOG_ENTRIES) <= j < |h| + 1
      ensures slots[|h| % MAX_LOG_ENTRIES := entry][j % MAX_LOG_ENTRIES] == (h + [entry])[j]
    {
      if j < |h| {
        assert j % MAX_LOG_ENTRIES != |h| % MAX_LOG_ENTRIES;
      }
    }
  }

  /**
   * One log_message on a ring that holds history h: after writing slot
   * index and advancing both counters, the ring holds h + [entry].
   */
  lemma RingStep(h: seq<string>, slots: seq<string>, index: int, count: int, entry: string)
    requires RingHolds(slots, h)
    requires index == |h| % MAX_LOG_ENTRIES && count == Min(|h|, MAX_LOG_ENTRIES)
    ensures RingHolds(slots[index := entry], h + [entry])
    ensures (index + 1) % MAX_LOG_ENTRIES == |h + [entry]| % MAX_LOG_ENTRIES
    ensures (if count < MAX_LOG_ENTRIES then count + 1 else MAX_LOG_ENTRIES) == Min(|h + [entry]|, MAX_LOG_ENTRIES)
  {
    RingWrite(h, slots, entry);
    CounterStep(|h|, index, count);
  }

  /**
   * The two read-out formulas agree whenever the ring invariant
   * "logCount < 50 implies logIndex == logCount" holds.
   */
  lemma StartFormulasAgree(logIndex: int, logCount: int)
    requires 0 <= logIndex < MAX_LOG_ENTRIES && 0 <= logCount <= MAX_LOG_ENTRIES
    requires logCount < MAX_LOG_ENTRIES ==> logIndex == logCount
    ensures (logIndex - logCount + MAX_LOG_ENTRIES) % MAX_LOG_ENTRIES
         == (if logCount == MAX_LOG_ENTRIES then logIndex else 0)
  {
  }
}
