/**
 * The pico_os web terminal: the state of its three applications (a two-task
 * to-do list, the LED blinker and the NTP clock), the app switcher and the
 * command processor that the web page drives. All of it lives in globals
 * of one program, modelled as the fields of one Terminal object next to its
 * output ring.
 *
 * Across every command at most one application runs, and it is the
 * current one; the blink interval stays within 50..5000 ms.
 */
module WebTerminal {
  import opened CText
  import Ntp
  import TerminalOutput

  const TASK_BUFFER: int := 15
  /** strncpy length of todo_add. */
  const TASK_LENGTH: int := 14
  const COMMAND_WIDTH: int := 63
  const ARGUMENT_WIDTH: int := 127
  const MIN_INTERVAL_MS: int := 50
  const MAX_INTERVAL_MS: int := 5000
  const DEFAULT_INTERVAL_MS: int := 500
  const MICROS_PER_SECOND: int := 1000000

  datatype App = AppNone | AppTodo | AppBlink | AppClock

  datatype Task = Task(text: string, done: bool)

  /** What process_command decides to do with one command line. */
  datatype Action =
    | Help | Clear | Status | ListApps | ShowCurrent
    | RunUsage | Run(name: string) | Stop | Reboot
    | TodoList | TodoAddUsage | TodoAdd(task: string) | TodoDone(n: int) | TodoDel(n: int)
    | BlinkSpeed(ms: int)
    | ClockShow
    | Unknown(command: string)

  /**
   * C's int64 `a / 1000000`, which truncates towards zero: the quotient is
   * the whole number of seconds between 0 and a, taken on the side of 0.
   */
  function DivTruncMicros(a: int): (q: int)
    ensures a >= 0 ==> q * MICROS_PER_SECOND <= a < (q + 1) * MICROS_PER_SECOND
    ensures a < 0 ==> (q - 1) * MICROS_PER_SECOND < a <= q * MICROS_PER_SECOND
  {
    if a >= 0 then a / MICROS_PER_SECOND else -((-a) / MICROS_PER_SECOND)
  }

  /**
   * C's truncation and Dafny's floor division agree except on negative
   * values that are not whole seconds, where C's quotient is one higher.
   */
  lemma DivTruncVersusFloor(a: int)
    ensures DivTruncMicros(a) == a / MICROS_PER_SECOND <==> a >= 0 || a % MICROS_PER_SECOND == 0
    ensures a < 0 && a % MICROS_PER_SECOND != 0 ==> DivTruncMicros(a) == a / MICROS_PER_SECOND + 1
  {
    var q := DivTruncMicros(a);
    var f := a / MICROS_PER_SECOND;
    assert f * MICROS_PER_SECOND + a % MICROS_PER_SECOND == a;
    if a < 0 {
      if a % MICROS_PER_SECOND == 0 {
        assert q == f;
      } else {
        assert q == f + 1;
      }
    }
  }

  /**
   * sscanf(cmd, "%63s %127[^\n]", command, arg1) into zeroed buffers,
   * followed by lower-casing the command word.
   */
  function ParseCommand(cmd: string): (p: (string, string))
    ensures |p.0| <= COMMAND_WIDTH && |p.1| <= ARGUMENT_WIDTH && '\n' !in p.1
    ensures forall i :: 0 <= i < |p.0| ==> !IsSpace(p.0[i]) && !('A' <= p.0[i] <= 'Z')
    ensures SkipSpaces(CString(cmd)) == [] ==> p == ("", "")
    ensures SkipSpaces(CString(cmd)) != [] ==> p.0 != []
  {
    match ScanWord(CString(cmd), COMMAND_WIDTH)
    case None => ("", "")
    case Some((w, rest)) => (Lower(w), ScanRestOfLine(rest, ARGUMENT_WIDTH))
  }

  /** The app `run <name>` starts, if the lower-cased name is one. */
  function AppNamed(name: string): (a: App)
    ensures a != AppNone <==> name in {"todo", "blink", "clock"}
  {
    if name == "todo" then AppTodo else if name == "blink" then AppBlink
    else if name == "clock" then AppClock else AppNone
  }

  function AppName(a: App): string {
    match a
    case AppNone => ""
    case AppTodo => "todo"
    case AppBlink => "blink"
    case AppClock => "clock"
  }

  predicate GlobalCommand(c: string) {
    c in {"help", "clear", "status", "apps", "current", "run", "stop", "reboot"}
  }

  /**
   * The dispatch of process_command: global commands first, then the
   * sub-commands of the current application, which only count while that
   * application is running; anything else is unknown.
   */
  function Classify(command: string, arg: string, app: App, todoRunning: bool, blinkRunning: bool, clockRunning: bool): (r: Action)
    ensures GlobalCommand(command) ==> !r.Unknown? && !r.TodoList? && !r.TodoAddUsage? && !r.TodoAdd? && !r.TodoDone? && !r.TodoDel? && !r.BlinkSpeed? && !r.ClockShow?
    ensures r.TodoList? || r.TodoAddUsage? || r.TodoAdd? || r.TodoDone? || r.TodoDel? ==> app == AppTodo && todoRunning
    ensures r.TodoAdd? ==> r.task == arg && arg != []
    ensures r.TodoDone? ==> r.n == Atoi(arg)
    ensures r.TodoDel? ==> r.n == Atoi(arg)
    ensures r.BlinkSpeed? ==> app == AppBlink && blinkRunning && 0 <= r.ms < UINT32_MOD && (r.ms - Atoi(arg)) % UINT32_MOD == 0
    ensures r.ClockShow? ==> app == AppClock && clockRunning
    ensures r.Run? ==> command == "run" && arg != [] && r.name == Lower(arg)
    ensures r == RunUsage <==> command == "run" && arg == []
    ensures r == Stop <==> command == "stop"
    ensures r.Unknown? ==> r.command == command && !GlobalCommand(command)
  {
    if command == "help" then Help
    else if command == "clear" then Clear
    else if command == "status" then Status
    else if command == "apps" then ListApps
    else if command == "current" then ShowCurrent
    else if command == "run" then (if arg == [] then RunUsage else Run(Lower(arg)))
    else if command == "stop" then Stop
    else if command == "reboot" then Reboot
    else if app == AppTodo && todoRunning && command == "list" then TodoList
    else if app == AppTodo && todoRunning && command == "add" then (if arg == [] then TodoAddUsage else TodoAdd(arg))
    else if app == AppTodo && todoRunning && command == "done" then TodoDone(Atoi(arg))
    else if app == AppTodo && todoRunning && command == "del" then TodoDel(Atoi(arg))
    else if app == AppBlink && blinkRunning && command == "speed" then BlinkSpeed(Atoi(arg) % UINT32_MOD)
    else if app == AppClock && clockRunning && command == "show" then ClockShow
    else Unknown(command)
  }

  /** The part of the terminal's state that commands act on. */
  datatype Apps = Apps(current: App, todoRunning: bool, blinkRunning: bool, clockRunning: bool,
                       tasks: seq<Task>, intervalMs: int)

  /** Only the current application can be running. */
  predicate OnlyCurrentRuns(s: Apps) {
    && (s.todoRunning ==> s.current == AppTodo)
    && (s.blinkRunning ==> s.current == AppBlink)
    && (s.clockRunning ==> s.current == AppClock)
  }

  /** Whether the current application is running. */
  function Running(s: Apps): bool {
    match s.current
    case AppNone => false
    case AppTodo => s.todoRunning
    case AppBlink => s.blinkRunning
    case AppClock => s.clockRunning
  }

  /** todo_stop, blink_stop or clock_stop of the current application, if it runs. */
  function StopCurrentApp(s: Apps): (r: Apps)
    ensures !Running(r) && r.current == s.current && r.tasks == s.tasks && r.intervalMs == s.intervalMs
  {
    match s.current
    case AppNone => s
    case AppTodo => s.(todoRunning := false)
    case AppBlink => s.(blinkRunning := false)
    case AppClock => s.(clockRunning := false)
  }

  /** The effect of each action on the applications. */
  function Perform(s: Apps, a: Action): (r: Apps)
    ensures !a.Run? && !a.Stop? ==>
      r.current == s.current && r.todoRunning == s.todoRunning
      && r.blinkRunning == s.blinkRunning && r.clockRunning == s.clockRunning
    ensures !a.TodoAdd? && !a.TodoDone? && !a.TodoDel? ==> r.tasks == s.tasks
    ensures !a.Run? && !a.BlinkSpeed? ==> r.intervalMs == s.intervalMs
    ensures |r.tasks| <= |s.tasks| + 1
  {
    match a
    case Run(name) =>
      var t := StopCurrentApp(s);
      (match AppNamed(name)
       case AppNone => t
       case AppTodo => t.(current := AppTodo, todoRunning := true)
       case AppBlink => t.(current := AppBlink, blinkRunning := true, intervalMs := DEFAULT_INTERVAL_MS)
       case AppClock => t.(current := AppClock, clockRunning := true))
    case Stop => StopCurrentApp(s).(current := AppNone)
    case TodoAdd(task) =>
      if |s.tasks| < 2 then s.(tasks := s.tasks + [Task(Take(CString(task), TASK_LENGTH), false)]) else s
    case TodoDone(n) =>
      if 1 <= n <= |s.tasks| then s.(tasks := s.tasks[n - 1 := Task(s.tasks[n - 1].text, true)]) else s
    case TodoDel(n) =>
      if 1 <= n <= |s.tasks| then s.(tasks := s.tasks[..n - 1] + s.tasks[n..]) else s
    case BlinkSpeed(ms) =>
      if MIN_INTERVAL_MS <= ms <= MAX_INTERVAL_MS then s.(intervalMs := ms) else s
    case _ => s
  }

  /** The switcher invariant and the bounds are kept by every action. */
  lemma PerformKeepsInvariant(s: Apps, a: Action)
    requires OnlyCurrentRuns(s) && |s.tasks| <= 2 && MIN_INTERVAL_MS <= s.intervalMs <= MAX_INTERVAL_MS
    ensures var r := Perform(s, a);
      OnlyCurrentRuns(r) && |r.tasks| <= 2 && MIN_INTERVAL_MS <= r.intervalMs <= MAX_INTERVAL_MS
  {
  }

  /** After `stop` no application is current or running. */
  lemma StopLeavesNothingRunning(s: Apps)
    requires OnlyCurrentRuns(s)
    ensures var r := Perform(s, Stop);
      r.current == AppNone && !r.todoRunning && !r.blinkRunning && !r.clockRunning && r.tasks == s.tasks
  {
  }

  /**
   * `run <name>` stops whatever ran before; the named application, if it is
   * one, is then the only one running. The to-do list survives a restart.
   */
  lemma RunSwitches(s: Apps, name: string)
    requires OnlyCurrentRuns(s)
    ensures var r := Perform(s, Run(name));
      && r.tasks == s.tasks
      && (AppNamed(name) != AppNone ==> r.current == AppNamed(name) && Running(r))
      && (AppNamed(name) == AppNone ==> r.current == s.current && !r.todoRunning && !r.blinkRunning && !r.clockRunning)
  {
  }

  /** Marking a task done twice is marking it once. */
  lemma DoneIdempotent(s: Apps, n: int)
    ensures Perform(Perform(s, TodoDone(n)), TodoDone(n)) == Perform(s, TodoDone(n))
  {
  }

  /** Deleting a task removes exactly that one and keeps the others in order. */
  lemma DeleteRemovesOne(s: Apps, n: int)
    requires 1 <= n <= |s.tasks|
    ensures var r := Perform(s, TodoDel(n));
      |r.tasks| == |s.tasks| - 1
      && (forall i :: 0 <= i < n - 1 ==> r.tasks[i] == s.tasks[i])
      && (forall i :: n - 1 <= i < |r.tasks| ==> r.tasks[i] == s.tasks[i + 1])
  {
  }

  /**
   * strncpy(dst, src, 14) followed by dst[14] = '\0': at most 14 characters
   * of the C string, NUL padding up to and including the last slot.
   */
  method CopyTruncated(dst: array<char>, src: string)
    requires dst.Length == TASK_BUFFER
    modifies dst
    ensures CString(dst[..]) == Take(CString(src), TASK_LENGTH) && '\0' in dst[..]
  {
    var text := Take(CString(src), TASK_LENGTH);
    var i := 0;
    while i < TASK_BUFFER
      invariant 0 <= i <= TASK_BUFFER
      invariant forall k :: 0 <= k < i ==> dst[k] == if k < |text| then text[k] else '\0'
    {
      dst[i] := if i < |text| then text[i] else '\0';
      i := i + 1;
    }
    assert dst[..] == text + ['\0'] + dst[|text| + 1..];
    assert dst[..][TASK_LENGTH] == '\0';
    CStringOfTerminated(text, dst[|text| + 1..]);
  }

  /** strcpy(dst, src) between two 15-character buffers. */
  method CopyCString(dst: array<char>, src: array<char>)
    requires dst.Length == TASK_BUFFER && src.Length == TASK_BUFFER && dst != src && '\0' in src[..]
    modifies dst
    ensures CString(dst[..]) == CString(src[..]) && '\0' in dst[..]
  {
    var text := CString(src[..]);
    assert |text| < TASK_BUFFER;
    var i := 0;
    while i < |text|
      invariant 0 <= i <= |text|
      invariant dst[..i] == text[..i] && dst[i..] == old(dst[i..])
    {
      dst[i] := src[i];
      i := i + 1;
    }
    dst[i] := '\0';
    assert dst[..] == text + ['\0'] + old(dst[|text| + 1..]);
    assert dst[..][|text|] == '\0';
    CStringOfTerminated(text, old(dst[|text| + 1..]));
  }

  class Terminal {
    var out: TerminalOutput.OutputBuffer

    // todo_state
    var task1: array<char>
    var task2: array<char>
    var done1: bool
    var done2: bool
    var todoCount: int
    var todoRunning: bool

    // blink_state
    var blinkRunning: bool
    var lastToggle: int
    var ledOn: bool
    var intervalMs: int

    // clock_state and ntp_state
    var clockRunning: bool
    var ntpSynced: bool
    var ntpInitialized: bool
    var ntpRequestSent: bool
    var baseTime: int
    var baseTick: int

    var currentApp: App

    ghost predicate Valid()
      reads this, out, task1, task2
    {
      && out.Valid()
      && task1.Length == TASK_BUFFER && task2.Length == TASK_BUFFER && task1 != task2
      && task1 != out.buffer && task2 != out.buffer
      && '\0' in task1[..] && '\0' in task2[..]
      && 0 <= todoCount <= 2
      && MIN_INTERVAL_MS <= intervalMs <= MAX_INTERVAL_MS
      && OnlyCurrentRuns(Snapshot())
    }

    ghost function Tasks(): (ts: seq<Task>)
      reads this, task1, task2
    {
      if task1.Length == TASK_BUFFER && task2.Length == TASK_BUFFER && 0 <= todoCount <= 2
      then [Task(CString(task1[..]), done1), Task(CString(task2[..]), done2)][..todoCount]
      else []
    }

    /** The applications' state as the reference model sees it. */
    ghost function Snapshot(): Apps
      reads this, task1, task2
    {
      Apps(currentApp, todoRunning, blinkRunning, clockRunning, Tasks(), intervalMs)
    }

    constructor ()
      ensures Valid() && fresh(out) && fresh(out.buffer) && fresh(task1) && fresh(task2)
      ensures Snapshot() == Apps(AppNone, false, false, false, [], DEFAULT_INTERVAL_MS)
      ensures !ntpSynced && !ntpInitialized && out.Contents() == []
    {
      out := new TerminalOutput.OutputBuffer();
      task1 := new char[TASK_BUFFER](_ => '\0');
      task2 := new char[TASK_BUFFER](_ => '\0');
      done1, done2, todoCount, todoRunning := false, false, 0, false;
      blinkRunning, lastToggle, ledOn, intervalMs := false, 0, false, DEFAULT_INTERVAL_MS;
      clockRunning, ntpSynced, ntpInitialized, ntpRequestSent := false, false, false, false;
      baseTime, baseTick := 0, 0;
      currentApp := AppNone;
      new;
      assert task1[..][0] == '\0' && task2[..][0] == '\0';
    }

    /**
     * todo_add: with a free slot the task (cut to 14 characters) fills slot
     * count+1, not done; with both slots taken nothing changes.
     */
    method TodoAddTask(task: string)
      requires Valid()
      modifies this, task1, task2
      ensures Valid() && unchanged(`out, `task1, `task2, `ledOn, `lastToggle, `ntpSynced, `baseTime, `baseTick)
      ensures Snapshot() == Perform(old(Snapshot()), TodoAdd(task))
    {
      if todoCount == 0 {
        FillSlot1(task);
      } else if todoCount == 1 {
        FillSlot2(task);
      }
    }

    /** The first branch of todo_add: the task goes into the empty slot 1. */
    method FillSlot1(task: string)
      requires Valid() && todoCount == 0
      modifies this, task1
      ensures Valid() && unchanged(`out, `task1, `task2, `ledOn, `lastToggle, `ntpSynced, `baseTime, `baseTick)
      ensures Snapshot() == old(Snapshot()).(tasks := [Task(Take(CString(task), TASK_LENGTH), false)])
    {
      ghost var other := task2[..];
      CopyTruncated(task1, task);
      done1 := false;
      todoCount := 1;
      assert task2[..] == other;
    }

    /** The second branch of todo_add: the task goes into slot 2 after task 1. */
    method FillSlot2(task: string)
      requires Valid() && todoCount == 1
      modifies this, task2
      ensures Valid() && unchanged(`out, `task1, `task2, `ledOn, `lastToggle, `ntpSynced, `baseTime, `baseTick)
      ensures Snapshot() == old(Snapshot()).(tasks := old(Tasks()) + [Task(Take(CString(task), TASK_LENGTH), false)])
    {
      ghost var other := task1[..];
      CopyTruncated(task2, task);
      done2 := false;
      todoCount := 2;
      assert task1[..] == other;
    }

    /** todo_done: set (not toggle) the done flag of an existing task n. */
    method TodoMarkDone(n: int)
      requires Valid()
      modifies this
      ensures Valid() && unchanged(`out, `task1, `task2, `ledOn, `lastToggle, `ntpSynced, `baseTime, `baseTick)
      ensures Snapshot() == Perform(old(Snapshot()), TodoDone(n))
    {
      if n == 1 && todoCount >= 1 {
        done1 := true;
      } else if n == 2 && todoCount >= 2 {
        done2 := true;
      }
    }

    /**
     * todo_del: task 1 may go whenever it exists (task 2 moves up, by
     * strcpy), task 2 only when both exist.
     */
    method TodoDelete(n: int)
      requires Valid()
      modifies this, task1
      ensures Valid() && unchanged(`out, `task1, `task2, `ledOn, `lastToggle, `ntpSynced, `baseTime, `baseTick)
      ensures Snapshot() == Perform(old(Snapshot()), TodoDel(n))
    {
      if n == 1 && todoCount == 2 {
        MoveTask2Up();
      } else if n == 1 && todoCount == 1 {
        todoCount := 0;
      } else if n == 2 && todoCount == 2 {
        todoCount := todoCount - 1;
      }
    }

    /** The first branch of todo_del with two tasks: task 2 is copied over task 1. */
    method MoveTask2Up()
      requires Valid() && todoCount == 2
      modifies this, task1
      ensures Valid() && unchanged(`out, `task1, `task2, `ledOn, `lastToggle, `ntpSynced, `baseTime, `baseTick)
      ensures Snapshot() == old(Snapshot()).(tasks := old(Tasks())[1..])
    {
      ghost var other := task2[..];
      CopyCString(task1, task2);
      done1 := done2;
      todoCount := 1;
      assert task2[..] == other;
    }

    /** blink_set_speed: only 50..5000 ms is accepted; otherwise nothing changes. */
    method BlinkSetSpeed(ms: int)
      requires Valid()
      modifies this
      ensures Valid() && unchanged(`out, `task1, `task2, `ledOn, `lastToggle, `ntpSynced, `baseTime, `baseTick)
      ensures Snapshot() == Perform(old(Snapshot()), BlinkSpeed(ms))
    {
      if ms < MIN_INTERVAL_MS || ms > MAX_INTERVAL_MS {
        return;
      }
      intervalMs := ms;
    }

    /**
     * blink_tick: while the blinker runs, the LED flips once more than the
     * interval has passed since the last flip.
     */
    method BlinkTick(nowUs: int)
      requires Valid()
      modifies this
      ensures Valid() && Snapshot() == old(Snapshot()) && unchanged(`out, `task1, `task2, `ntpSynced)
      ensures (blinkRunning && nowUs - old(lastToggle) > intervalMs * 1000) == (ledOn != old(ledOn))
      ensures lastToggle == if ledOn != old(ledOn) then nowUs else old(lastToggle)
    {
      if !blinkRunning {
        return;
      }
      if nowUs - lastToggle > intervalMs * 1000 {
        ledOn := !ledOn;
        lastToggle := nowUs;
      }
    }

    /**
     * get_current_time: 0 until NTP has answered, then the NTP base time
     * plus the whole seconds elapsed on the monotonic clock since.
     */
    method CurrentTime(nowUs: int) returns (t: int)
      requires Valid()
      ensures !ntpSynced ==> t == 0
      ensures ntpSynced && nowUs >= baseTick ==>
        (t - baseTime) * MICROS_PER_SECOND <= nowUs - baseTick < (t - baseTime + 1) * MICROS_PER_SECOND
      ensures ntpSynced && nowUs < baseTick ==>
        (t - baseTime - 1) * MICROS_PER_SECOND < nowUs - baseTick <= (t - baseTime) * MICROS_PER_SECOND
    {
      if !ntpSynced {
        return 0;
      }
      var elapsed := DivTruncMicros(nowUs - baseTick);
      t := baseTime + elapsed;
    }

    /**
     * ntp_recv: a reply of exactly 48 bytes sets the base time (unsigned
     * 32-bit arithmetic) and the tick it arrived at, and marks the clock
     * synchronised; any other packet changes nothing.
     */
    method NtpReceive(packet: seq<Byte>, nowUs: int)
      requires Valid()
      modifies this
      ensures Valid() && Snapshot() == old(Snapshot()) && unchanged(`out, `task1, `task2)
      ensures Ntp.TerminalBaseTime(packet).Some? ==> ntpSynced && baseTime == Ntp.TerminalBaseTime(packet).value && baseTick == nowUs
      ensures Ntp.TerminalBaseTime(packet).None? ==> ntpSynced == old(ntpSynced) && baseTime == old(baseTime) && baseTick == old(baseTick)
    {
      var base := Ntp.TerminalBaseTime(packet);
      if base.Some? {
        baseTime := base.value;
        baseTick := nowUs;
        ntpSynced := true;
      }
    }

    /**
     * ntp_init, run when the clock app starts: it gives up when no UDP
     * control block can be had (pcbAvailable), and does nothing once it
     * has succeeded.
     */
    method NtpInit(pcbAvailable: bool)
      requires Valid()
      modifies this
      ensures Valid() && Snapshot() == old(Snapshot()) && unchanged(`out, `task1, `task2, `ntpSynced, `ledOn, `lastToggle, `baseTime, `baseTick)
      ensures ntpInitialized == (old(ntpInitialized) || pcbAvailable)
    {
      if ntpInitialized {
        return;
      }
      if !pcbAvailable {
        return;
      }
      ntpInitialized := true;
    }

    /**
     * ntp_tick: send the one request once initialised, not yet synchronised
     * and the server address has been resolved (dnsResolved); the request
     * counts as sent only when its pbuf could be allocated (pbufAllocated).
     */
    method NtpTick(dnsResolved: bool, pbufAllocated: bool)
      requires Valid()
      modifies this
      ensures Valid() && Snapshot() == old(Snapshot()) && unchanged(`out, `task1, `task2, `ntpSynced)
      ensures ntpRequestSent == (old(ntpRequestSent) || (ntpInitialized && !ntpSynced && dnsResolved && pbufAllocated))
    {
      if !ntpInitialized || ntpSynced || ntpRequestSent {
        return;
      }
      if !dnsResolved {
        return;
      }
      NtpSendRequest(pbufAllocated);
    }

    /** ntp_send_request: when pbuf_alloc fails nothing is sent and the next tick tries again. */
    method NtpSendRequest(pbufAllocated: bool)
      requires Valid()
      modifies this
      ensures Valid() && Snapshot() == old(Snapshot()) && unchanged(`out, `task1, `task2, `ntpSynced, `ntpInitialized)
      ensures ntpRequestSent == (old(ntpRequestSent) || pbufAllocated)
    {
      if !pbufAllocated {
        return;
      }
      ntpRequestSent := true;
    }

    /** The stop functions of the three applications, for the current one if it runs. */
    method StopCurrent()
      requires Valid()
      modifies this
      ensures Valid() && unchanged(`out, `task1, `task2, `ledOn, `lastToggle, `ntpSynced, `ntpInitialized, `baseTime, `baseTick)
      ensures Snapshot() == StopCurrentApp(old(Snapshot()))
    {
      if currentApp == AppTodo && todoRunning {
        todoRunning := false;
      }
      if currentApp == AppBlink && blinkRunning {
        blinkRunning := false;
      }
      if currentApp == AppClock && clockRunning {
        clockRunning := false;
      }
    }

    /**
     * "run <app>" with a non-empty name: stop the current application, then
     * start the named one (todo_init, blink_init, clock_init); an unknown
     * name leaves the current application stopped but current.
     */
    method RunApp(name: string, nowUs: int, pcbAvailable: bool)
      requires Valid()
      modifies this
      ensures Valid() && unchanged(`out, `task1, `task2, `ntpSynced, `baseTime, `baseTick)
      ensures Snapshot() == Perform(old(Snapshot()), Run(name))
      ensures AppNamed(name) == AppBlink ==> !ledOn && lastToggle == nowUs
      ensures AppNamed(name) == AppClock ==> ntpInitialized == (old(ntpInitialized) || pcbAvailable)
    {
      StopCurrent();
      var app := AppNamed(name);
      if app == AppTodo {
        StartTodo();
      } else if app == AppBlink {
        StartBlink(nowUs);
      } else if app == AppClock {
        StartClock(pcbAvailable);
      }
    }

    /** todo_init: the list itself survives a restart. */
    method StartTodo()
      requires Valid() && !Running(Snapshot())
      modifies this
      ensures Valid() && unchanged(`out, `task1, `task2, `ntpSynced, `baseTime, `baseTick)
      ensures Snapshot() == old(Snapshot()).(current := AppTodo, todoRunning := true)
    {
      currentApp := AppTodo;
      todoRunning := true;
    }

    /** blink_init: the LED starts off and the interval goes back to 500 ms. */
    method StartBlink(nowUs: int)
      requires Valid() && !Running(Snapshot())
      modifies this
      ensures Valid() && unchanged(`out, `task1, `task2, `ntpSynced, `baseTime, `baseTick)
      ensures Snapshot() == old(Snapshot()).(current := AppBlink, blinkRunning := true, intervalMs := DEFAULT_INTERVAL_MS)
      ensures !ledOn && lastToggle == nowUs
    {
      currentApp := AppBlink;
      blinkRunning := true;
      lastToggle := nowUs;
      ledOn := false;
      intervalMs := DEFAULT_INTERVAL_MS;
    }

    /** clock_init: NTP is set up the first time the clock starts. */
    method StartClock(pcbAvailable: bool)
      requires Valid() && !Running(Snapshot())
      modifies this
      ensures Valid() && unchanged(`out, `task1, `task2, `ntpSynced, `baseTime, `baseTick)
      ensures Snapshot() == old(Snapshot()).(current := AppClock, clockRunning := true)
      ensures ntpInitialized == (old(ntpInitialized) || pcbAvailable)
    {
      currentApp := AppClock;
      clockRunning := true;
      NtpInit(pcbAvailable);
    }

    /** "stop": stop the current application if it runs; none is current afterwards. */
    method StopApp()
      requires Valid()
      modifies this
      ensures Valid() && unchanged(`out, `task1, `task2, `ledOn, `lastToggle, `ntpSynced, `baseTime, `baseTick)
      ensures Snapshot() == Perform(old(Snapshot()), Stop)
    {
      StopCurrent();
      currentApp := AppNone;
    }

    /** "clear": output_clear, then the notice. */
    method ClearTerminal()
      requires Valid()
      modifies out, out.buffer
      ensures Valid() && out.Contents() == "Terminal cleared.\n\n" && !out.overflow
    {
      var notice := "Terminal cleared.\n\n";
      out.Clear();
      CStringOfPlain(notice);
      assert TerminalOutput.LastN(out.Contents() + CString(notice), TerminalOutput.OUTPUT_BUFFER_SIZE - 1) == notice;
      out.Write(notice);
    }

    /**
     * process_command: parse and classify the line, then act. The messages
     * it prints are not modelled beyond "clear", which empties the output
     * ring and writes its notice.
     */
    method ProcessCommand(cmd: string, nowUs: int, pcbAvailable: bool) returns (action: Action)
      requires Valid()
      modifies this, out, out.buffer, task1, task2
      ensures Valid() && out == old(out) && task1 == old(task1) && task2 == old(task2)
      ensures var (command, arg) := ParseCommand(cmd);
        action == Classify(command, arg, old(currentApp), old(todoRunning), old(blinkRunning), old(clockRunning))
      ensures Snapshot() == Perform(old(Snapshot()), action)
      ensures action == Clear ==> out.Contents() == "Terminal cleared.\n\n" && !out.overflow
      ensures action != Clear ==> out.Contents() == old(out.Contents()) && out.overflow == old(out.overflow)
    {
      var (command, arg) := ParseCommand(cmd);
      action := Classify(command, arg, currentApp, todoRunning, blinkRunning, clockRunning);
      match action {
        case Clear => ClearTerminal();
        case Run(name) => RunApp(name, nowUs, pcbAvailable);
        case Stop => StopApp();
        case TodoAdd(task) => TodoAddTask(task);
        case TodoDone(n) => TodoMarkDone(n);
        case TodoDel(n) => TodoDelete(n);
        case BlinkSpeed(ms) => BlinkSetSpeed(ms);
        case _ =>
      }
    }
  }

  /** `run` with an app name in any letter case starts that app. */
  lemma RunIgnoresCase(name: string)
    ensures AppNamed(Lower(name)) != AppNone ==> AppName(AppNamed(Lower(name))) == Lower(name)
  {
  }

  /** A negative speed wraps to a huge unsigned value and is refused. */
  lemma NegativeSpeedRefused(arg: string)
    requires -0x8000_0000 <= Atoi(arg) < 0
    ensures !(MIN_INTERVAL_MS <= Atoi(arg) % UINT32_MOD <= MAX_INTERVAL_MS)
  {
  }
}
