/**
 * The process table of shell-based-pico-os: eight entries, filled in order
 * and never reused. add_process appends a running entry (its name cut to
 * 31 characters) and logs it; stop_process clears the running flag of the
 * first running entry with the given name; list_processes shows the
 * running ones with their run time. The process functions themselves are
 * not called by the table and are not modelled.
 */
module ProcessTable {
  import opened CText
  import opened SystemLog

  const MAX_PROCESSES: int := 8
  /** Size of the name field; strncpy copies at most this minus one characters. */
  const NAME_SIZE: int := 32
  /** Size of the buffer the log message is formatted into. */
  const MESSAGE_SIZE: int := 64

  /** One entry: its name, its running flag and its start time in ms since boot (32-bit). */
  datatype Process = Process(name: string, running: bool, startTime: nat)

  /** The name an entry keeps: the C string cut to 31 characters. */
  function StoredName(name: string): (n: string)
    ensures |n| < NAME_SIZE && '\0' !in n && n <= CString(name)
    ensures |CString(name)| < NAME_SIZE ==> n == CString(name)
  {
    Take(CString(name), NAME_SIZE - 1)
  }

  /**
   * The log line "<verb> process: <name>" as snprintf leaves it in the
   * 64-byte message buffer: the first min(length, 63) characters, all of
   * them when the line fits.
   */
  function ProcessMessage(verb: string, name: string): (m: string)
    ensures |m| == Min(|verb + " process: " + CString(name)|, MESSAGE_SIZE - 1)
    ensures m <= verb + " process: " + CString(name)
  {
    Take(verb + " process: " + CString(name), MESSAGE_SIZE - 1)
  }

  /** With a name of at most 31 characters both log lines fit whole. */
  lemma ShortNameMessagesWhole(name: string)
    requires |CString(name)| < NAME_SIZE
    ensures ProcessMessage("Started", name) == "Started process: " + CString(name)
    ensures ProcessMessage("Stopped", name) == "Stopped process: " + CString(name)
  {
  }

  /** The first running entry whose stored name is `name`. */
  function FirstRunning(table: seq<Process>, name: string): (k: Option<nat>)
    ensures k.Some? ==> k.value < |table| && table[k.value].running && table[k.value].name == name
    ensures k.Some? ==> forall j :: 0 <= j < k.value ==> !(table[j].running && table[j].name == name)
    ensures k.None? <==> forall j :: 0 <= j < |table| ==> !(table[j].running && table[j].name == name)
  {
    if table == [] then None
    else if table[0].running && table[0].name == name then Some(0)
    else match FirstRunning(table[1..], name)
      case None => None
      case Some(k) => Some(k + 1)
  }

  /** The table after stop_process(name): one entry stops, or nothing changes. */
  function Stopped(table: seq<Process>, name: string): (r: seq<Process>)
    ensures |r| == |table|
    ensures forall j :: 0 <= j < |r| ==> r[j].name == table[j].name && r[j].startTime == table[j].startTime
    ensures FirstRunning(table, name).None? ==> r == table
    ensures FirstRunning(table, name).Some? ==>
      var k := FirstRunning(table, name).value;
      !r[k].running && forall j :: 0 <= j < |r| && j != k ==> r[j] == table[j]
  {
    match FirstRunning(table, name)
    case None => table
    case Some(k) => table[k := table[k].(running := false)]
  }

  /** Number of running entries. */
  function RunningCount(table: seq<Process>): (n: nat)
    ensures n <= |table|
  {
    if table == [] then 0 else (if table[0].running then 1 else 0) + RunningCount(table[1..])
  }

  lemma {:induction false} RunningCountUpdate(table: seq<Process>, k: nat, p: Process)
    requires k < |table|
    ensures RunningCount(table[k := p]) + (if table[k].running then 1 else 0)
         == RunningCount(table) + (if p.running then 1 else 0)
  {
    if k > 0 {
      assert table[k := p][1..] == table[1..][k - 1 := p];
      RunningCountUpdate(table[1..], k - 1, p);
    }
  }

  lemma {:induction false} RunningCountAppend(table: seq<Process>, p: Process)
    ensures RunningCount(table + [p]) == RunningCount(table) + (if p.running then 1 else 0)
  {
    if table != [] {
      assert (table + [p])[1..] == table[1..] + [p];
      RunningCountAppend(table[1..], p);
    }
  }

  /** Stopping a name ends exactly one process when one of that name runs, and none otherwise. */
  lemma StopEndsOne(table: seq<Process>, name: string)
    ensures RunningCount(Stopped(table, name)) ==
      RunningCount(table) - (if FirstRunning(table, name).Some? then 1 else 0)
  {
    match FirstRunning(table, name)
    case None =>
    case Some(k) => RunningCountUpdate(table, k, table[k].(running := false));
  }

  /**
   * A process just added under a name no running entry has is the one a
   * stop of that name ends.
   */
  lemma {:induction false} StopFindsAdded(table: seq<Process>, name: string, start: nat)
    requires FirstRunning(table, StoredName(name)).None?
    ensures FirstRunning(table + [Process(StoredName(name), true, start)], StoredName(name)) == Some(|table|)
  {
    var t := table + [Process(StoredName(name), true, start)];
    if table != [] {
      assert t[1..] == table[1..] + [Process(StoredName(name), true, start)];
      StopFindsAdded(table[1..], name, start);
    }
  }

  /** Run time as list_processes computes it: a 32-bit unsigned difference. */
  function Runtime(nowMs: nat, startTime: nat): (r: nat)
    ensures r < UINT32_MOD
    ensures (startTime + r - nowMs) % UINT32_MOD == 0
  {
    (nowMs - startTime) % UINT32_MOD
  }

  /** What list_processes prints: name and run time of each running entry, in table order. */
  function RunningView(table: seq<Process>, nowMs: nat): (v: seq<(string, nat)>)
    ensures |v| == RunningCount(table)
    ensures forall a :: 0 <= a < |v| ==> v[a].1 < UINT32_MOD
  {
    if table == [] then []
    else
      var last := table[|table| - 1];
      assert table == table[..|table| - 1] + [last];
      RunningCountAppend(table[..|table| - 1], last);
      RunningView(table[..|table| - 1], nowMs) + (if last.running then [(last.name, Runtime(nowMs, last.startTime))] else [])
  }

  /** A stopped entry disappears from the listing: stopping a running name shortens it by one. */
  lemma StopShortensListing(table: seq<Process>, name: string, nowMs: nat)
    requires FirstRunning(table, name).Some?
    ensures |RunningView(Stopped(table, name), nowMs)| == |RunningView(table, nowMs)| - 1
  {
    StopEndsOne(table, name);
  }

  class Table {
    var processes: array<Process>
    var processCount: int

    ghost predicate Valid()
      reads this
    {
      processes.Length == MAX_PROCESSES && 0 <= processCount <= MAX_PROCESSES
    }

    /** The entries in use, in the order they were added. */
    ghost function Entries(): (t: seq<Process>)
      reads this, processes
      requires Valid()
      ensures |t| == processCount
    {
      processes[..processCount]
    }

    constructor ()
      ensures Valid() && fresh(processes) && Entries() == []
    {
      processes := new Process[MAX_PROCESSES](_ => Process("", false, 0));
      processCount := 0;
    }

    /**
     * add_process: -1 when the table is full; otherwise the entry goes at
     * index processCount, running, started at nowMs (32-bit ms since boot),
     * its index is returned and "Started process: <name>" is logged with
     * the stamp the caller's clock gives.
     */
    method AddProcess(name: string, nowMs: nat, log: Log, stamp: Stamp) returns (id: int)
      requires Valid() && log.Valid() && log.SlotsHoldRecent()
      requires nowMs < UINT32_MOD
      modifies this, processes, log, log.entries
      ensures Valid() && processes == old(processes)
      ensures log.Valid() && log.SlotsHoldRecent() && log.entries == old(log.entries)
      ensures old(processCount) >= MAX_PROCESSES ==>
        id == -1 && Entries() == old(Entries()) && log.history == old(log.history)
      ensures old(processCount) < MAX_PROCESSES ==>
        id == old(processCount) && Entries() == old(Entries()) + [Process(StoredName(name), true, nowMs)]
        && log.history == old(log.history) + [FormatEntry(stamp, ProcessMessage("Started", name))]
    {
      if processCount >= MAX_PROCESSES {
        return -1;
      }
      processes[processCount] := Process(StoredName(name), true, nowMs);
      processCount := processCount + 1;
      assert Entries() == old(Entries()) + [Process(StoredName(name), true, nowMs)];
      log.LogMessage(stamp, ProcessMessage("Started", name));
      id := processCount - 1;
    }

    /**
     * stop_process: the first running entry with that name stops and the
     * stop is logged; returns whether one was found ("not found" otherwise).
     */
    method StopProcess(name: string, log: Log, stamp: Stamp) returns (found: bool)
      requires Valid() && log.Valid() && log.SlotsHoldRecent()
      modifies processes, log, log.entries
      ensures Valid() && log.Valid() && log.SlotsHoldRecent() && log.entries == old(log.entries)
      ensures found == FirstRunning(old(Entries()), CString(name)).Some?
      ensures Entries() == Stopped(old(Entries()), CString(name))
      ensures log.history == old(log.history) + (if found then [FormatEntry(stamp, ProcessMessage("Stopped", name))] else [])
    {
      var target := CString(name);
      var i := 0;
      while i < processCount
        invariant 0 <= i <= processCount
        invariant forall j :: 0 <= j < i ==> !(processes[j].running && processes[j].name == target)
        invariant Entries() == old(Entries())
      {
        if processes[i].name == target && processes[i].running {
          assert FirstRunning(Entries(), target) == Some(i) by {
            RunningAt(Entries(), target, i);
          }
          processes[i] := processes[i].(running := false);
          assert Entries() == old(Entries())[i := old(Entries())[i].(running := false)];
          log.LogMessage(stamp, ProcessMessage("Stopped", name));
          return true;
        }
        i := i + 1;
      }
      return false;
    }

    /** list_processes: each running entry's name and run time, in table order. */
    method ListProcesses(nowMs: nat) returns (shown: seq<(string, nat)>)
      requires Valid()
      ensures shown == RunningView(Entries(), nowMs)
    {
      shown := [];
      var i := 0;
      while i < processCount
        invariant 0 <= i <= processCount
        invariant shown == RunningView(Entries()[..i], nowMs)
      {
        assert Entries()[..i + 1][..i] == Entries()[..i];
        if processes[i].running {
          shown := shown + [(processes[i].name, Runtime(nowMs, processes[i].startTime))];
        }
        i := i + 1;
      }
      assert Entries()[..i] == Entries();
    }
  }

  /** A matching running entry with no earlier one is the first. */
  lemma {:induction false} RunningAt(table: seq<Process>, name: string, i: nat)
    requires i < |table| && table[i].running && table[i].name == name
    requires forall j :: 0 <= j < i ==> !(table[j].running && table[j].name == name)
    ensures FirstRunning(table, name) == Some(i)
  {
    if i > 0 {
      RunningAt(table[1..], name, i - 1);
    }
  }
}
