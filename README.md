# Verified model of the Raspberry Pi Pico 2 W firmware demos

This project models in Dafny the sequential logic of a set of small
firmware programs for the Raspberry Pi Pico 2 W, and proves properties of
that model. The programs covered are:

- two serial "shell OS" firmwares, `shell-based-pico-os` and `pico-shell-based-os`;
- the `pico_os` web terminal;
- the ASCII clock;
- the `to-do-pico` menu;
- the `pico_scanner` TCP port scanner.

What is modelled:

- **Ring buffers.**
  - The 50-slot system log and its two read-out orders (`system_log.dfy`).
  - The 16384-character output ring of the web terminal (`output_buffer.dfy`).
- **Calendar and NTP.**
  - The ASCII clock's calendar and one-second tick, and its digit split (`ascii_clock.dfy`).
  - The NTP request, the Transmit Timestamp seconds field and the three conversions to Unix time (`ntp.dfy`).
  - The shells' wall clock and timezone setting (`shell_time.dfy`).
- **To-do lists: the four two-slot variants.**
  - to-do-pico (`todo_pico.dfy`).
  - The web terminal's list (`web_terminal.dfy`).
  - The `todo_app` of each shell (`shell_todo.dfy`).
- **Text input and command lines.**
  - The line editors of both shells and the shell loop (`line_input.dfy`).
  - The argument splitting of `execute_command` (`command_args.dfy`).
  - The text collection of `nano_editor` (`nano_editor.dfy`).
  - The process table (`process_table.dfy`).
- **Web terminal.** Its application switcher and command processor (`web_terminal.dfy`).
- **HTTP file server of `pico-shell-based-os`.** The MIME table, the URL-to-file mapping and the response chosen (`web_server.dfy`).
- **Games.**
  - Tetris board operations: rotation, collision, merge and line clearing in place on 2-D arrays, plus scoring (`tetris.dfy`).
  - The snake game's key and move rules (`snake.dfy`).
- **Port scanner.** Command validation and the callback-driven port iteration (`port_scanner.dfy`).

C string handling, sscanf conversions, atoi and printf's decimal forms are
modelled once, in `cstr.dfy`.

State that the C code changes in place is a Dafny `class`:

- fixed buffers are `array`s;
- the Tetris board and shapes are `array2`s;
- a ghost view, such as `Contents()`, `Tasks()` or `GridOf`, ties each method to a pure specification function;
- the lemmas are proved about those functions.

Inputs from outside become parameters:

- the keys typed;
- the clock readings;
- `rand()` draws;
- `ipaddr_ntoa`/`ipaddr_aton` results;
- whether `tcp_new`/`tcp_connect`/`udp_new` succeed;
- whether DNS has answered;
- the file system, as a map from path to content.

Where the model follows the code rather than a natural reading of it:

- `PortScanner::parse_command` stores `start_port`/`end_port` through
  `sscanf` before it validates them, so a refused range still changes
  them. `PortScanner.Scanner.ParseCommand` states exactly what is stored.
- The second shell's todo delete clears the text and the active flag but
  keeps the completed flag (`ShellTodo.DeactivatedKeepsCompleted`).
- The second shell stores any timezone offset atoi returns, without
  clamping. Only the first shell clamps to -12..+14.
- The scanner's range check `end_port > 65535` on a `uint16_t` can never
  hold. See the findings below.

## Model

| member | source | states |
|---|---|---|
| SystemLog.FormatEntry | pico-shell-based-os/pico_os.cpp:269-280 | a slot holds fewer than 128 characters, a prefix of stamp and message, and the whole of them when they fit |
| SystemLog.Log.constructor | pico-shell-based-os/pico_os.cpp:139-142 | the log starts empty with index and count 0 |
| SystemLog.Log.LogMessage | pico-shell-based-os/pico_os.cpp:269-283 | the entry goes into the slot at the old index and no other slot changes; the index advances modulo 50; the count saturates at 50; the slots keep holding the last count entries logged |
| SystemLog.RingStep | pico-shell-based-os/pico_os.cpp:269-283 | one log_message on a ring holding history h (slot written at the old index, index advanced modulo 50, count saturating) leaves a ring holding h plus the new entry, with index and count those of the longer history |
| SystemLog.RingWrite | shell-based-pico-os/pico_os.cpp:214-228 | writing slot \|h\| mod 50 keeps the last min(\|h\|+1, 50) entries of the extended history in their slots |
| SystemLog.Log.ViewLog | shell-based-pico-os/pico_os.cpp:539-547 | starting at log_index when full and at 0 otherwise, it prints exactly the last log_count entries, oldest first |
| SystemLog.Log.ViewLogModular | pico-shell-based-os/pico_os.cpp:2313-2321 | starting at (log_index - log_count + 50) % 50, it prints the same last log_count entries, oldest first |
| SystemLog.Log.ReadFrom | shell-based-pico-os/pico_os.cpp:542-545 | reading log_count slots from the oldest slot yields the retained entries in logging order |
| SystemLog.Log.OldestSlot | pico-shell-based-os/pico_os.cpp:2316 | the oldest retained entry is at both start formulas, and log_count < 50 implies log_index == log_count |
| SystemLog.StartFormulasAgree | shell-based-pico-os/pico_os.cpp:541 | under the ring invariant the two start formulas give the same slot |
| TerminalOutput.LastN | pico_os/main.cpp:54-65 | the last min(\|s\|, n) elements of s, as a suffix |
| TerminalOutput.RingPush | pico_os/main.cpp:57-58 | storing at the slot after the unread run appends the character to the run |
| TerminalOutput.RingDrop | pico_os/main.cpp:60-63 | advancing the read position drops exactly the oldest unread character |
| TerminalOutput.LastNAppend | pico_os/main.cpp:55-64 | cutting to the newest n and then appending loses nothing more than cutting afterwards |
| TerminalOutput.Unread | pico_os/main.cpp:78 | the unread count is the distance from the read to the write position round the ring, below 16384 |
| TerminalOutput.PushEffect | pico_os/main.cpp:56-63 | a write appends the character to the unread run; when the write position comes round to the read position the read position moves on and the oldest character is dropped |
| TerminalOutput.OutputBuffer.Pending | pico_os/main.cpp:78 | the number of unread characters is below 16384 |
| TerminalOutput.OutputBuffer.constructor | pico_os/main.cpp:41-46 | the ring starts empty without overflow |
| TerminalOutput.OutputBuffer.Clear | pico_os/main.cpp:48-52 | nothing is unread afterwards and overflow is false |
| TerminalOutput.OutputBuffer.Write | pico_os/main.cpp:54-65 | the unread text becomes the newest 16383 characters of the old unread text followed by the string; overflow is set exactly when something was dropped |
| TerminalOutput.OutputBuffer.PutChar | pico_os/main.cpp:56-63 | one character is appended, and the oldest is dropped and overflow set when the ring was full |
| TerminalOutput.OutputBuffer.Printf | pico_os/main.cpp:67-74 | at most 511 characters of the formatted text are written |
| TerminalOutput.OutputBuffer.ReadAll | pico_os/main.cpp:76-84 | it copies min(unread, max_len-1) characters in FIFO order, NUL-terminates, returns that count and removes exactly those characters; overflow is untouched |
| TerminalOutput.OutputBuffer.PopChar | pico_os/main.cpp:79-80 | takes the oldest unread character and leaves the rest |
| TerminalOutput.WriteThenDrain | pico_os/main.cpp:54-84 | a message that fits, written into an empty ring, is exactly what is read back |
| Ntp.BigEndian32 | pico-shell-based-os/pico_os.cpp:289 | the four bytes read most significant first give a value below 2^32 |
| Ntp.BigEndian32OfBytes | pico-shell-based-os/pico_os.cpp:289 | reading back the four network-order bytes of v gives v |
| Ntp.BytesOfBigEndian32 | pico-shell-based-os/pico_os.cpp:289 | encoding the value read from four bytes gives those bytes back |
| Ntp.TransmitSeconds | pico-shell-based-os/pico_os.cpp:288-289 | the seconds value is the big-endian reading of bytes 40..43 |
| Ntp.TransmitSecondsOfReply | pico_os/main.cpp:260-261 | a reply carrying a given seconds value in its Transmit Timestamp yields that value |
| Ntp.ClientRequest | pico_os/main.cpp:275-281 | a 48-byte request, zero except the first byte, which says leap 0, version 3, mode 3 |
| Ntp.ShellUnixTime | pico-shell-based-os/pico_os.cpp:286-297 | a packet is used exactly when it has at least 48 bytes, and the time is seconds - 2208988800 + offset*3600 modulo 2^32 |
| Ntp.ClockUnixTime | ascii_clock/ascii_clock.cpp:133-142 | a packet is used exactly when it has 48 bytes, and the time is seconds - 2208988800 + offset with no wrap |
| Ntp.TerminalBaseTime | pico_os/main.cpp:256-266 | a packet is used exactly when it has 48 bytes, and the base time is seconds - 2208988800 modulo 2^32 |
| Ntp.ConversionsAgreeInEra | ascii_clock/ascii_clock.cpp:136-137 | for a server time between 1970 and the end of the 32-bit NTP era all three conversions give the exact Unix time |
| Ntp.PreEpochWraps | pico_os/main.cpp:261-262 | a server time before 1970 is negative in the clock but wraps past 2036 in the web terminal |
| AsciiClock.DaysInMonth | ascii_clock/ascii_clock.cpp:94-97 | between 28 and 31; 29 exactly for February of a Gregorian leap year and 28 for February of any other year; the table value for every other month; 31 exactly for the seven long months |
| AsciiClock.IsLeapYear | ascii_clock/ascii_clock.cpp:90-92 | the Gregorian rule: divisible by 4 and not by 100, or divisible by 400 |
| AsciiClock.LeapYearCycle | ascii_clock/ascii_clock.cpp:90-92 | the leap rule repeats every 400 years; 2000 and 2024 are leap years, 1900 and 2100 are not |
| AsciiClock.MonthTable | ascii_clock/ascii_clock.cpp:95 | the table has 28 days exactly for February and 30 exactly for April, June, September and November |
| AsciiClock.NextSecond | ascii_clock/ascii_clock.cpp:99-115 | the seconds count modulo 60; while they do not wrap nothing else changes; a change of year goes to the next year, on 1 January |
| AsciiClock.CRemainder7 | ascii_clock/ascii_clock.cpp:106 | C's `% 7`: congruent to the dividend, below 7 in absolute value, and Dafny's remainder for a non-negative dividend |
| AsciiClock.DaysBeforeMonth | ascii_clock/ascii_clock.cpp:94-97 | the days of the months before m, at most 31 per month |
| AsciiClock.MonthInsideYear | ascii_clock/ascii_clock.cpp:94-97 | the days before a month plus its own days never exceed the days of the year |
| AsciiClock.DaysBeforeEndOfYear | ascii_clock/ascii_clock.cpp:94-97 | the twelve month lengths add up to 366 in a leap year and 365 otherwise |
| AsciiClock.SecondOfYear | ascii_clock/ascii_clock.cpp:99-115 | the second of the year a valid date-time names lies within its year: at least 0 and below 86400 times the days of the year |
| AsciiClock.NextSecondValid | ascii_clock/ascii_clock.cpp:99-115 | the tick keeps second < 60, minute < 60, hour < 24, 1 <= month <= 12, 1 <= day <= days_in_month and 0 <= dotw < 7 |
| AsciiClock.NextSecondIsOneLater | ascii_clock/ascii_clock.cpp:99-115 | the tick is one second later: the second of the year grows by one, or at the last second of the year the year advances and the count restarts at 0 |
| AsciiClock.NextSecondWithinMinute | ascii_clock/ascii_clock.cpp:100 | below 59 seconds only the seconds change, by one |
| AsciiClock.NextSecondDayOfWeek | ascii_clock/ascii_clock.cpp:102-106 | dotw advances by one modulo 7 exactly when the hour wraps from 23 to 0, and is unchanged otherwise |
| AsciiClock.NextSecondNewYear | ascii_clock/ascii_clock.cpp:107-113 | the year changes exactly when 31 December 23:59:59 rolls over, and then to 1 January 00:00:00 of the next year |
| AsciiClock.ClockDigits | ascii_clock/ascii_clock.cpp:171-183 | for a valid time the six DIGITS indices are in 0..9 (the tens within 2, 5 and 5) and spell hour, minute and second |
| AsciiClock.Clock.Init | ascii_clock/ascii_clock.cpp:117-119 | all seven fields are set at once |
| AsciiClock.Clock.Tick | ascii_clock/ascii_clock.cpp:99-115 | the fields become the next second of the old ones, and a valid date-time stays valid |
| AsciiClock.Clock.SetFromNtp | ascii_clock/ascii_clock.cpp:121-131 | the fields become the broken-down NTP time and the clock is marked synced |
| AsciiClock.ManualStartValid | ascii_clock/ascii_clock.cpp:237 | the manual start time is a valid date-time (its day of the week, 6, is one off: 1 February 2026 is a Sunday, 0) |
| TodoPico.StoreCString | to-do-pico/main.cpp:35 | the word and a NUL are stored at the front of the buffer and the rest is unchanged, so the buffer reads back as the word |
| TodoPico.ScannedText | to-do-pico/main.cpp:35 | the task text is the old text when the input holds only white space; otherwise it is the longest run of at most 14 non-blank characters after the white space (cut at a NUL, as the buffer is read back as a C string), and exactly that run when the input has no NUL |
| TodoPico.RestAfterWord | to-do-pico/main.cpp:35-36 | a task typed as one word of at most 14 characters and a newline leaves exactly what follows the newline |
| TodoPico.ScannedRest | to-do-pico/main.cpp:35-36 | what scanf("%14s") and getchar leave unread: after the skipped white space, the scanned word (at most 14 characters) and the one character getchar takes, or nothing when the input ends first; empty when the input holds no word |
| TodoPico.Menu.constructor | to-do-pico/main.cpp:6-10 | both buffers empty, both flags false and no task |
| TodoPico.Menu.List | to-do-pico/main.cpp:24-29 | the tasks shown are exactly slots 1..cnt with their done flags |
| TodoPico.Menu.Add | to-do-pico/main.cpp:31-49 | with a free slot the next word fills slot cnt+1, not done, and cnt grows by one with the earlier task kept, and the input after the word and one more character is left unread; with cnt 2 nothing changes and nothing is read |
| TodoPico.Menu.ReadTask | to-do-pico/main.cpp:35-36 | the buffer reads back as the word scanned, or keeps its text when the input is exhausted; what is left unread is ScannedRest of the input |
| TodoPico.Menu.Done | to-do-pico/main.cpp:51-62 | task n is set done (never toggled) exactly when 1 <= n <= cnt; otherwise nothing changes |
| TodoPico.Menu.Delete | to-do-pico/main.cpp:64-80 | deleting 1 needs cnt >= 1 and moves task 2 up; deleting 2 needs cnt == 2; the remaining tasks keep their order and an invalid choice changes nothing |
| TodoPico.Menu.CopyTask | to-do-pico/main.cpp:71 | t1 becomes a copy of all 15 characters of t2 |
| TodoPico.Menu.Step | to-do-pico/main.cpp:17-82 | per choice: 2 appends the scanned task when a slot is free (else nothing); 3 marks the numbered task done and 4 removes it from the list when it exists (else nothing), both reading the number and one more character; any other choice changes nothing and reads nothing |
| TodoPico.DeleteRemovesOne | to-do-pico/main.cpp:64-80 | removing one task leaves the others, one fewer |
| ShellTodo.StoredText | shell-based-pico-os/pico_os.cpp:650-651 | the stored text is the C string cut to 99 characters, whole when it fits, and empty exactly when the input is |
| ShellTodo.Edited | shell-based-pico-os/pico_os.cpp:647-655 | slot idx becomes active and not completed with the stored text; the other slot is unchanged |
| ShellTodo.Toggled | shell-based-pico-os/pico_os.cpp:657-666 | a completed flag flips exactly for the active slot atoi(num)-1 in 0..1; texts and active flags are unchanged |
| ShellTodo.ClearedSlot | shell-based-pico-os/pico_os.cpp:668-679 | the selected active slot goes back to the empty record and every other slot is unchanged |
| ShellTodo.Deactivated | pico-shell-based-os/pico_os.cpp:1862-1873 | the selected active slot loses its text and active flag but keeps its completed flag; every other slot is unchanged |
| ShellTodo.FirstFree | pico-shell-based-os/pico_os.cpp:1838-1839 | the first inactive slot: all before it are active, and None exactly when all are active |
| ShellTodo.Added | pico-shell-based-os/pico_os.cpp:1837-1852 | non-empty text fills the first inactive slot, active and not completed; with no free slot or empty text nothing changes |
| ShellTodo.ActiveCount | pico-shell-based-os/pico_os.cpp:1812-1819 | the number of active slots is at most the number of slots |
| ShellTodo.ActiveCountUpdate | pico-shell-based-os/pico_os.cpp:1812-1819 | replacing one slot changes the active count by the change in that slot's active flag |
| ShellTodo.AddedCount | pico-shell-based-os/pico_os.cpp:1837-1852 | adding raises the active count by one exactly when a slot is free and the text is not empty, and never past two |
| ShellTodo.DeleteThenAdd | pico-shell-based-os/pico_os.cpp:1837-1873 | after deleting task 1, the next add fills slot 1 and leaves slot 2 alone |
| ShellTodo.ToggleTwice | shell-based-pico-os/pico_os.cpp:657-666 | toggling the same number twice restores every slot |
| ShellTodo.FirstShellKeepsSlotsClear | shell-based-pico-os/pico_os.cpp:647-679 | the first shell's edit, toggle and delete keep every inactive slot empty and not completed |
| ShellTodo.OperationsKeepWellFormed | pico-shell-based-os/pico_os.cpp:1846-1847 | every operation keeps each text within its 100-character buffer |
| ShellTodo.DeactivatedKeepsCompleted | pico-shell-based-os/pico_os.cpp:1867-1868 | the second shell's delete can leave a completed flag on an inactive slot |
| ShellTodo.Todos.constructor | shell-based-pico-os/pico_os.cpp:93-96 | both slots start as the empty record |
| ShellTodo.Todos.ActiveSlots | pico-shell-based-os/pico_os.cpp:1812-1819 | the listed slots are exactly the active ones, in increasing order |
| ShellTodo.Todos.Edit | shell-based-pico-os/pico_os.cpp:647-655 | the array becomes Edited of the old array |
| ShellTodo.Todos.Toggle | shell-based-pico-os/pico_os.cpp:657-666 | the array becomes Toggled of the old array |
| ShellTodo.Todos.Clear | shell-based-pico-os/pico_os.cpp:668-679 | the array becomes ClearedSlot of the old array |
| ShellTodo.Todos.Deactivate | pico-shell-based-os/pico_os.cpp:1862-1873 | the array becomes Deactivated of the old array |
| ShellTodo.Todos.Add | pico-shell-based-os/pico_os.cpp:1837-1852 | the array becomes Added of the old array |
| ShellTodo.Todos.MenuFirstShell | shell-based-pico-os/pico_os.cpp:645-684 | choices 1 to 4 apply edit slot 1, edit slot 2, toggle and delete; 5 exits; anything else changes nothing |
| ShellTodo.Todos.MenuSecondShell | pico-shell-based-os/pico_os.cpp:1835-1876 | choices 1 to 3 apply add, toggle and delete; 4 exits; anything else changes nothing |
| ShellTodo.FreeAt | pico-shell-based-os/pico_os.cpp:1838-1839 | an inactive slot after only active ones is the first free slot |
| ProcessTable.StoredName | shell-based-pico-os/pico_os.cpp:309 | the stored name is the C string cut to 31 characters, whole when it fits |
| ProcessTable.ProcessMessage | shell-based-pico-os/pico_os.cpp:315-316 | the start line (and the stop line of lines 326-327) is exactly the first min(length, 63) characters of "<verb> process: name", as snprintf keeps them in the 64-byte buffer |
| ProcessTable.ShortNameMessagesWhole | shell-based-pico-os/pico_os.cpp:326-327 | for a name of at most 31 characters the start and stop lines are written whole |
| ProcessTable.FirstRunning | shell-based-pico-os/pico_os.cpp:323-324 | the first running entry of that name, with none before it, and None exactly when no running entry has that name |
| ProcessTable.Stopped | shell-based-pico-os/pico_os.cpp:322-334 | exactly the first running entry of that name stops and nothing else changes; with no such entry the table is unchanged |
| ProcessTable.RunningCount | shell-based-pico-os/pico_os.cpp:336-350 | the number of running entries is at most the table size |
| ProcessTable.RunningCountUpdate | shell-based-pico-os/pico_os.cpp:325 | replacing an entry changes the running count by the change of its flag |
| ProcessTable.RunningCountAppend | shell-based-pico-os/pico_os.cpp:309-313 | appending an entry adds its flag to the running count |
| ProcessTable.StopEndsOne | shell-based-pico-os/pico_os.cpp:322-334 | a stop ends exactly one process when one of that name runs, and none otherwise |
| ProcessTable.StopFindsAdded | shell-based-pico-os/pico_os.cpp:306-334 | a process just added under a name no running entry has is the one a stop of that name ends |
| ProcessTable.Runtime | shell-based-pico-os/pico_os.cpp:341 | the run time is the 32-bit unsigned difference of now and the start time |
| ProcessTable.RunningView | shell-based-pico-os/pico_os.cpp:336-350 | the listing has one line per running entry, with a 32-bit run time |
| ProcessTable.StopShortensListing | shell-based-pico-os/pico_os.cpp:322-350 | stopping a running name removes exactly one line from the listing |
| ProcessTable.Table.constructor | shell-based-pico-os/pico_os.cpp:50-55 | the table starts with no entry |
| ProcessTable.Table.AddProcess | shell-based-pico-os/pico_os.cpp:306-320 | returns -1 and changes nothing when 8 entries exist; otherwise appends the running entry at index process_count, returns that index and logs the start |
| ProcessTable.Table.StopProcess | shell-based-pico-os/pico_os.cpp:322-334 | the entries become Stopped of the old entries, and the stop is logged exactly when an entry was found |
| ProcessTable.Table.ListProcesses | shell-based-pico-os/pico_os.cpp:336-350 | the running entries with their run times, in table order |
| ProcessTable.RunningAt | shell-based-pico-os/pico_os.cpp:323-324 | a matching running entry with no earlier match is the first |
| ShellTime.ClampTimezone | shell-based-pico-os/pico_os.cpp:759-761 | the kept offset lies in -12..14, equals the typed value when that is in range, and is the nearer bound otherwise |
| ShellTime.TimezoneLabel | shell-based-pico-os/pico_os.cpp:762 | "UTC" followed by the signed offset, under 32 characters, and atoi of the part after "UTC" gives the offset back |
| ShellTime.ClampIdempotent | shell-based-pico-os/pico_os.cpp:759-761 | clamping twice is clamping once |
| ShellTime.TimeOfDay | shell-based-pico-os/pico_os.cpp:222-224 | hour < 24, minute < 60, second < 60, and they name the same second of the day as the Unix time |
| ShellTime.LogStamp | shell-based-pico-os/pico_os.cpp:215-225 | the uptime stamp is used exactly when the clock reads 0, and is the 32-bit ms since boot in whole seconds |
| ShellTime.WallTime.constructor | shell-based-pico-os/pico_os.cpp:73-77 | the clock starts unset, offset 0 and label "GMT" |
| ShellTime.WallTime.CurrentTime | shell-based-pico-os/pico_os.cpp:132-138 | 0 while unset; otherwise the stored time plus the whole seconds since it was set |
| ShellTime.WallTime.SetCurrentTime | shell-based-pico-os/pico_os.cpp:141-145 | the stored time and its boot-clock reading are replaced and the clock is marked synced |
| ShellTime.WallTime.NtpReceive | shell-based-pico-os/pico_os.cpp:231-242 | a packet of at least 48 bytes sets the clock to the converted time and logs the synchronisation; a shorter one changes nothing |
| ShellTime.WallTime.Synchronized | shell-based-pico-os/pico_os.cpp:238 | exactly one log entry "NTP time synchronized" is added |
| ShellTime.WallTime.SetTimezoneClamped | shell-based-pico-os/pico_os.cpp:757-763 | the offset becomes the clamped atoi of the input and the label is "UTC%+d" of it |
| ShellTime.WallTime.SetTimezoneUnclamped | pico-shell-based-os/pico_os.cpp:2350-2353 | the offset becomes atoi of the input with no clamp; the label is unchanged |
| ShellTime.MillisToSeconds | shell-based-pico-os/pico_os.cpp:136-137 | whole milliseconds, then whole seconds of those, are the whole seconds |
| ShellTime.LabelReadsBack | shell-based-pico-os/pico_os.cpp:759-762 | the label of the first shell reads back as the offset it keeps |
| ShellTime.UnclampedOffsetAccepted | pico-shell-based-os/pico_os.cpp:2352 | the second shell keeps an offset of 100 hours where the first would keep 14 |
| LineInput.EditStep | shell-based-pico-os/pico_os.cpp:375-389 | one editing key never takes the buffer past 255 characters and keeps it printable |
| LineInput.EditStepEffect | shell-based-pico-os/pico_os.cpp:375-389 | backspace/delete removes the last character only when there is one; a printable key is appended only below 255 characters; every other key leaves the buffer as it is |
| LineInput.Edit | shell-based-pico-os/pico_os.cpp:362-391 | a run of editing keys never takes the buffer past 255 characters and keeps it printable |
| LineInput.EditAppend | shell-based-pico-os/pico_os.cpp:362-391 | editing keys one after another is editing their concatenation |
| LineInput.TypeText | shell-based-pico-os/pico_os.cpp:380-389 | printable characters that fit are stored exactly as typed |
| LineInput.BackspaceCancels | shell-based-pico-os/pico_os.cpp:375-380 | typing a printable character and then backspace leaves the line as it was |
| LineInput.FirstEnd | shell-based-pico-os/pico_os.cpp:369 | the first CR or LF, with none before it, and None exactly when there is none |
| LineInput.EndAt | shell-based-pico-os/pico_os.cpp:369 | a CR/LF with none before it is the first |
| LineInput.FirstShellLine | shell-based-pico-os/pico_os.cpp:353-392 | the line is the edit of the keys before the first CR/LF, at most 255 printable characters; None exactly when no CR/LF arrives |
| LineInput.SecondShellLine | pico-shell-based-os/pico_os.cpp:2371-2413 | the line read by the second shell, at most 255 characters, consuming no more keys than arrive |
| LineInput.FirstShellReadsTypedLine | shell-based-pico-os/pico_os.cpp:353-392 | a printable line of at most 255 characters followed by Enter is returned exactly, with all its keys consumed |
| LineInput.SecondShellReadsTypedLine | pico-shell-based-os/pico_os.cpp:2383-2404 | a printable line that fits followed by Enter is returned exactly by the second shell |
| LineInput.SecondShellStopsWhenFull | pico-shell-based-os/pico_os.cpp:2383-2412 | once 255 characters are typed the second shell returns them without waiting for CR/LF |
| LineInput.LineReader.constructor | shell-based-pico-os/pico_os.cpp:354 | the static 256-character input buffer |
| LineInput.LineReader.ReadLineFirst | shell-based-pico-os/pico_os.cpp:353-392 | the loop returns FirstShellLine of the keys, and the buffer then holds the line NUL-terminated |
| LineInput.LineReader.EditKeyFirst | shell-based-pico-os/pico_os.cpp:374-389 | one key of the first shell's loop edits the buffer as EditStep says |
| LineInput.LineReader.Terminate | shell-based-pico-os/pico_os.cpp:370 | the NUL written after the line leaves the line in place and makes it the buffer's C string |
| LineInput.LineReader.ReadLineSecond | pico-shell-based-os/pico_os.cpp:2371-2413 | the loop returns SecondShellLine of the keys, and the buffer then holds the line NUL-terminated |
| LineInput.LineReader.EditKeySecond | pico-shell-based-os/pico_os.cpp:2389-2402 | one key of the second shell's loop edits the buffer as EditStep says |
| LineInput.Commands | pico-shell-based-os/pico_os.cpp:2540-2577 | every command run is a non-empty line of at most 255 characters |
| LineInput.TypedCommandRuns | pico-shell-based-os/pico_os.cpp:2550-2562 | a typed non-empty command line followed by Enter runs exactly that command |
| LineInput.CommandLine.Pending | pico-shell-based-os/pico_os.cpp:2566-2573 | the command typed so far has at most 255 characters |
| LineInput.CommandLine.constructor | pico-shell-based-os/pico_os.cpp:112-113 | the command buffer starts empty |
| LineInput.CommandLine.Key | pico-shell-based-os/pico_os.cpp:2550-2575 | CR/LF hands over the typed line when not empty and starts a new one; any other key edits the line as EditStep says |
| LineInput.CommandLine.Run | shell-based-pico-os/pico_os.cpp:942-978 | the commands run over a stream of keys are exactly Commands of that stream, in order |
| LineInput.CommandsAtEnd | pico-shell-based-os/pico_os.cpp:2550-2562 | a CR/LF hands over the typed line, when it is not empty, and what follows starts from an empty line |
| LineInput.CommandsAtEdit | pico-shell-based-os/pico_os.cpp:2563-2575 | any other key edits the typed line and reading goes on |
| LineInput.CommandsOneMore | pico-shell-based-os/pico_os.cpp:2550-2575 | after one more key, the commands run so far followed by those still to come from the typed line are still the commands of the whole stream |
| LineInput.EditOneMore | pico-shell-based-os/pico_os.cpp:2563-2575 | while no CR/LF has arrived, the typed line is the edit of all keys so far |
| LineInput.ShellLoopMatchesReadLine | shell-based-pico-os/pico_os.cpp:952-962 | the first command shell_loop runs is exactly the line read_line returns for the same keys |
| LineInput.CommandsPrefix | pico-shell-based-os/pico_os.cpp:2550-2575 | the keys up to the first CR/LF give the first command and the rest go on from an empty line |
| CommandArgs.TokenPrefix | shell-based-pico-os/pico_os.cpp:835 | the longest space-free prefix, stopped by a space |
| CommandArgs.SkipBlanks | shell-based-pico-os/pico_os.cpp:828 | what is left after the leading spaces starts with something else |
| CommandArgs.NextToken | shell-based-pico-os/pico_os.cpp:835-839 | one strtok call: None exactly when only spaces remain; otherwise a non-empty space-free token followed by the rest, which starts with a space or is empty |
| CommandArgs.Tokens | shell-based-pico-os/pico_os.cpp:835-839 | every token strtok returns is non-empty and holds no space |
| CommandArgs.SplitArgs | pico-shell-based-os/pico_os.cpp:2417-2426 | the arguments are the first 16 tokens of the line, in order |
| CommandArgs.FirstShellArgs | shell-based-pico-os/pico_os.cpp:826-841 | after skipping leading spaces nothing runs exactly when the line has no token; otherwise the arguments are its first 16 tokens |
| CommandArgs.SecondShellArgs | pico-shell-based-os/pico_os.cpp:2416-2426 | nothing runs exactly when the line has no token; otherwise the arguments are its first 16 tokens |
| CommandArgs.TokensAfterBlanks | shell-based-pico-os/pico_os.cpp:828 | dropping leading spaces does not change the tokens |
| CommandArgs.SkipBlanksDrop | shell-based-pico-os/pico_os.cpp:828 | skipping some of the leading spaces first changes nothing |
| CommandArgs.ShellsAgree | pico-shell-based-os/pico_os.cpp:2420 | the two shells split every line into the same tokens |
| CommandArgs.BlanksAreSpaces | shell-based-pico-os/pico_os.cpp:828 | whatever SkipBlanks removes are spaces |
| CommandArgs.TokensOfJoined | shell-based-pico-os/pico_os.cpp:835-839 | words without spaces joined by single spaces split back into the same words |
| CommandArgs.TokenPrefixOf | shell-based-pico-os/pico_os.cpp:835 | a space-free word followed by a space is cut exactly at the space |
| CommandArgs.ExtraWordsDropped | shell-based-pico-os/pico_os.cpp:836 | of a line of more than 16 words the first 16 are kept |
| NanoEditor.Collected | shell-based-pico-os/pico_os.cpp:460-475 | the saved text stays below 2048 characters and only grows from the text collected so far; None while lines are still awaited |
| NanoEditor.SaveStops | shell-based-pico-os/pico_os.cpp:463-465 | a "SAVE" line ends editing at once and is not stored |
| NanoEditor.StoresLinesThatFit | shell-based-pico-os/pico_os.cpp:460-475 | lines other than "SAVE" that fit are stored exactly, each followed by a newline, up to the "SAVE" |
| NanoEditor.SkipsLineThatDoesNotFit | shell-based-pico-os/pico_os.cpp:468-472 | a line without room for itself, its newline and the NUL is dropped, and reading goes on |
| NanoEditor.CopyLine | shell-based-pico-os/pico_os.cpp:469 | the line is copied into content at content_len and what comes before it is kept |
| NanoEditor.Collect | shell-based-pico-os/pico_os.cpp:453-476 | the loop saves exactly Collected of the lines read |
| WebTerminal.DivTruncMicros | pico_os/main.cpp:251 | C's int64 `/ 1000000`: for a non-negative difference q seconds lie at or below it and q+1 above; for a negative one q seconds lie at or above it and q-1 below, so the quotient truncates toward zero |
| WebTerminal.DivTruncVersusFloor | pico_os/main.cpp:251 | the truncating quotient equals floor division exactly for non-negative or whole-second differences, and is one higher for every other negative difference |
| WebTerminal.ParseCommand | pico_os/main.cpp:385-390 | the command word holds at most 63 non-blank characters and is lower-cased, the argument is the rest of the line up to 127 characters with no newline; a blank line gives two empty strings, any other line a non-empty command |
| WebTerminal.AppNamed | pico_os/main.cpp:467-478 | exactly "todo", "blink" and "clock" name an application |
| WebTerminal.Classify | pico_os/main.cpp:393-559 | global commands are matched first and never fall through to an app; the to-do, blink and clock sub-commands are only taken while that app is current and running; `run` without an argument is the usage text, with one the lower-cased name; `done`/`del` take atoi of the argument and `speed` its unsigned 32-bit value; everything else is unknown |
| WebTerminal.StopCurrentApp | pico_os/main.cpp:458-460 | after stopping the current application it no longer runs, and the tasks, interval and current application are untouched |
| WebTerminal.Perform | pico_os/main.cpp:393-559 | an action other than run and stop leaves which application is current and running alone; only add, done and del touch the tasks, only run and speed the interval, and a step adds at most one task |
| WebTerminal.PerformKeepsInvariant | pico_os/main.cpp:452-549 | every command keeps "only the current application runs", at most two tasks and an interval within 50..5000 ms |
| WebTerminal.StopLeavesNothingRunning | pico_os/main.cpp:484-504 | after `stop` nothing is current or running and the tasks are kept |
| WebTerminal.RunSwitches | pico_os/main.cpp:452-482 | `run` stops the old app; a known name becomes current and running, an unknown one leaves nothing running; the tasks survive |
| WebTerminal.DoneIdempotent | pico_os/main.cpp:141-152 | marking a task done twice has the effect of marking it once |
| WebTerminal.DeleteRemovesOne | pico_os/main.cpp:154-169 | deleting task n removes exactly that task and keeps the others in order |
| WebTerminal.CopyTruncated | pico_os/main.cpp:124-125 | strncpy of 14 characters plus the NUL at index 14 stores the first 14 characters of the C string, and the buffer stays terminated |
| WebTerminal.CopyCString | pico_os/main.cpp:157 | strcpy between two task buffers copies the C string and leaves the target terminated |
| WebTerminal.Terminal.constructor | pico_os/main.cpp:87-94 | the initial state of the globals (todo_state here, and likewise blink_state, ntp_state, clock_state and current_app): no tasks, no app current or running, a 500 ms interval, NTP not set up, an empty output ring |
| WebTerminal.Terminal.TodoAddTask | pico_os/main.cpp:122-139 | a free slot takes the task cut to 14 characters, not done; a full list is unchanged |
| WebTerminal.Terminal.TodoMarkDone | pico_os/main.cpp:141-152 | an existing task n is marked done; any other n changes nothing |
| WebTerminal.Terminal.TodoDelete | pico_os/main.cpp:154-169 | deleting task 1 moves task 2 up, deleting task 2 needs both to exist; other numbers change nothing |
| WebTerminal.Terminal.BlinkSetSpeed | pico_os/main.cpp:200-209 | only 50..5000 ms is stored; any other value changes nothing |
| WebTerminal.Terminal.BlinkTick | pico_os/main.cpp:217-227 | while the blinker runs and more than the interval has passed the LED flips and the flip time is recorded; otherwise the LED and the flip time are unchanged |
| WebTerminal.Terminal.CurrentTime | pico_os/main.cpp:249-253 | 0 before the NTP reply; afterwards the base time plus the whole seconds elapsed since the reply arrived, truncated toward zero when the clock reads earlier than the arrival |
| WebTerminal.Terminal.NtpReceive | pico_os/main.cpp:256-266 | a 48-byte reply sets the base time to the transmit seconds minus 2208988800 in 32-bit unsigned arithmetic, records the arrival tick and marks the clock synchronised; any other packet changes nothing |
| WebTerminal.Terminal.NtpInit | pico_os/main.cpp:286-298 | NTP is set up once a UDP control block is had and stays set up |
| WebTerminal.Terminal.NtpTick | pico_os/main.cpp:301-308 | the one request counts as sent exactly when NTP is set up, not yet synchronised, the server address is known and the pbuf could be allocated; otherwise the next tick tries again |
| WebTerminal.Terminal.NtpSendRequest | pico_os/main.cpp:275-284 | request_sent is set only after pbuf_alloc succeeds; a failed allocation returns early and changes nothing |
| WebTerminal.Terminal.StopCurrent | pico_os/main.cpp:458-460 | the stop function of the current application runs when it is running; the applications' state ends as StopCurrentApp says |
| WebTerminal.Terminal.RunApp | pico_os/main.cpp:452-482 | the terminal's applications end as `run <name>` says in the reference model; a blinker starts dark at the current tick; the clock sets up NTP |
| WebTerminal.Terminal.StartTodo | pico_os/main.cpp:105-109 | the to-do app becomes current and running with its list kept |
| WebTerminal.Terminal.StartBlink | pico_os/main.cpp:190-198 | the blinker becomes current and running with the LED off, the interval at 500 ms and the flip time now |
| WebTerminal.Terminal.StartClock | pico_os/main.cpp:329-340 | the clock becomes current and running and NTP is set up if it was not |
| WebTerminal.Terminal.StopApp | pico_os/main.cpp:484-504 | the applications end as `stop` says in the reference model |
| WebTerminal.Terminal.ClearTerminal | pico_os/main.cpp:407-411 | the output ring then holds exactly "Terminal cleared.\n\n" |
| WebTerminal.Terminal.ProcessCommand | pico_os/main.cpp:384-559 | the action taken is Classify of the parsed line against the state before; the applications end as the reference model says for that action; the model writes no replies, so only `clear` changes the output ring (the replies themselves are listed under Left out) |
| WebTerminal.RunIgnoresCase | pico_os/main.cpp:465-478 | after lower-casing, a recognised application name is the name of the app started |
| WebTerminal.NegativeSpeedRefused | pico_os/main.cpp:546-548 | a negative speed becomes a huge unsigned value in the uint32_t and blink_set_speed refuses it |
| Tetris.GridOf | pico-shell-based-os/pico_os.cpp:1375 | the board array read as a sequence of rows agrees with the array cell by cell |
| Tetris.GridOfPointwise | pico-shell-based-os/pico_os.cpp:1375 | a grid that agrees with an array at every cell is that array's grid |
| Tetris.RotatedTwice | pico-shell-based-os/pico_os.cpp:1258-1266 | two quarter turns send every cell to the opposite corner |
| Tetris.Rotated | pico-shell-based-os/pico_os.cpp:1258-1266 | the quarter turn keeps a 4 x 4 shape and moves cell (i, j) to (j, 3-i) |
| Tetris.FourRotations | pico-shell-based-os/pico_os.cpp:1258-1266 | four quarter turns give back the shape |
| Tetris.FreePlacement | pico-shell-based-os/pico_os.cpp:1268-1285 | a piece that does not collide lies between the side walls and above the floor, and all its cells on the board are empty |
| Tetris.Collides | pico-shell-based-os/pico_os.cpp:1268-1285 | some filled cell of the piece at (x, y) is off the sides or bottom or on a block |
| Tetris.SpawnFitsEmptyBoard | pico-shell-based-os/pico_os.cpp:1381-1385 | each of the seven shapes placed at column 3, row 0 fits on an empty board |
| Tetris.EmptyBoard | pico-shell-based-os/pico_os.cpp:1375 | the starting board is 20 x 10 with every cell 0 |
| Tetris.MergedBlocksItself | pico-shell-based-os/pico_os.cpp:1287-1299 | once merged, a piece with a cell on the board collides with itself at the same place |
| Tetris.Merged | pico-shell-based-os/pico_os.cpp:1287-1299 | the board after merging stays a 20 x 10 board; what its cells then hold is stated by MergePiece, MergedBlocksItself and MergeOverwritesNothing |
| Tetris.MergeOverwritesNothing | pico-shell-based-os/pico_os.cpp:1287-1299 | merging a piece where it does not collide overwrites no block already on the board |
| Tetris.Kept | pico-shell-based-os/pico_os.cpp:1301-1321 | the rows kept are rows of the board, and none of them is full |
| Tetris.FullCount | pico-shell-based-os/pico_os.cpp:1301-1321 | the full rows and the kept rows together are all the rows |
| Tetris.ClearedBoard | pico-shell-based-os/pico_os.cpp:1301-1321 | after clearing, no row is full, the rows that were not full keep their order at the bottom, and one empty row per removed row is on top |
| Tetris.Cleared | pico-shell-based-os/pico_os.cpp:1301-1321 | the cleared board keeps 20 rows; their content (no full row, kept rows in order at the bottom, empty rows on top) is stated by ClearedBoard |
| Tetris.ClearTwice | pico-shell-based-os/pico_os.cpp:1301-1321 | clearing a cleared board finds no full row and changes nothing |
| Tetris.NothingFullKeepsAll | pico-shell-based-os/pico_os.cpp:1301-1321 | a board with no full row is kept whole and none is counted |
| Tetris.DropIntervalAsWritten | pico-shell-based-os/pico_os.cpp:1432-1433 | the interval as written: the int difference stored in a uint32_t, then raised to at least 100 |
| Tetris.DropStallsAtLevel12 | pico-shell-based-os/pico_os.cpp:1432-1433 | at level 11 the interval is 100 ms; at level 12 it wraps to 4294967196 ms, so the piece no longer falls on its own |
| Tetris.DropInterval | pico-shell-based-os/pico_os.cpp:1388-1389 | 1000 ms at level 1, 100 ms less each level, never below 100 ms |
| Tetris.DropIntervalAgrees | pico-shell-based-os/pico_os.cpp:1432-1433 | the interval as written and the intended one agree up to level 11 |
| Tetris.DropIntervalMonotone | pico-shell-based-os/pico_os.cpp:1431-1433 | a higher level never drops more slowly |
| Tetris.Landed | pico-shell-based-os/pico_os.cpp:1428-1434 | clearing k lines adds k lines and k*k*100 points; the level stays 1 + lines/10 and the interval follows the level |
| Tetris.StartConsistent | pico-shell-based-os/pico_os.cpp:1376-1389 | the starting score, level, lines and interval are consistent |
| Tetris.Piece.constructor | pico-shell-based-os/pico_os.cpp:1437-1440 | a new piece has the shape of its type at column 3, row 0 |
| Tetris.RotatePiece | pico-shell-based-os/pico_os.cpp:1258-1266 | the shape becomes its quarter turn: cell (i, j) takes cell (3-j, i) |
| Tetris.CopyGrid | pico-shell-based-os/pico_os.cpp:1265 | the target grid equals the source grid cell by cell |
| Tetris.CheckCollision | pico-shell-based-os/pico_os.cpp:1268-1285 | true exactly when some filled cell of the moved piece is off the left, right or bottom edge or on a block; rows above the top are allowed |
| Tetris.MergePiece | pico-shell-based-os/pico_os.cpp:1287-1299 | each board cell under a filled piece cell takes type + 1; every other cell is unchanged |
| Tetris.RowFull | pico-shell-based-os/pico_os.cpp:1304-1310 | true exactly when every cell of the row is non-zero |
| Tetris.CopyRow | pico-shell-based-os/pico_os.cpp:1314 | the target row takes the source row; every other row is unchanged |
| Tetris.RemoveRow | pico-shell-based-os/pico_os.cpp:1313-1316 | the rows above row i move down one and an empty row comes in on top |
| Tetris.ClearLines | pico-shell-based-os/pico_os.cpp:1301-1321 | returns the number of full rows, and the board becomes the board without them with as many empty rows on top |
| Tetris.RemoveStep | pico-shell-based-os/pico_os.cpp:1311-1318 | removing the full row just scanned adds one to the count and an empty row on top |
| Tetris.KeepStep | pico-shell-based-os/pico_os.cpp:1303-1310 | a row that is not full stays where it is and the count is unchanged |
| Tetris.ScannedRow | pico-shell-based-os/pico_os.cpp:1303-1317 | the row scanned next is the next original row, or an empty one once all are scanned |
| Snake.Velocity | pico-shell-based-os/pico_os.cpp:1551-1559 | each of w, s, a, d is a single step along a row or a column |
| Snake.KeyDirection | pico-shell-based-os/pico_os.cpp:1534-1541 | a key taken is a direction key in either case, and it never turns the snake straight back |
| Snake.ReversalRejected | pico-shell-based-os/pico_os.cpp:1534-1541 | the key that reverses the current heading is always refused |
| Snake.TurnAccepted | pico-shell-based-os/pico_os.cpp:1534-1541 | any other direction key, upper or lower case, becomes the pending direction |
| Snake.Advanced | pico-shell-based-os/pico_os.cpp:1585-1601 | the moved body starts at the new head and continues with the old body; it grows by one on food below 100 segments and otherwise keeps its length |
| Snake.Crashes | pico-shell-based-os/pico_os.cpp:1565-1577 | a move crashes exactly when the new head is off the 20 x 15 grid or on a segment of the body |
| Snake.AdvancedWellFormed | pico-shell-based-os/pico_os.cpp:1562-1619 | a move that does not crash keeps the snake on the grid, in one piece and not crossing itself |
| Snake.AdvancedAsWritten | pico-shell-based-os/pico_os.cpp:1589-1619 | the move as written: a 100-segment snake that eats is not shifted and only its head is overwritten |
| Snake.FullSnakeTornAsWritten | pico-shell-based-os/pico_os.cpp:1589-1619 | as written, a full snake that eats is no longer in one piece |
| Snake.TwoStepsNotAdjacent | pico-shell-based-os/pico_os.cpp:1562-1563 | two single steps never end next to where they started |
| Snake.FoodCell | pico-shell-based-os/pico_os.cpp:1605-1606 | the two rand() values reduced modulo 20 and 15 always give a cell on the grid |
| Snake.FirstFree | pico-shell-based-os/pico_os.cpp:1604-1615 | the food goes on the first drawn cell no segment takes; there is none exactly when every draw is taken |
| Snake.FoodAsWritten | pico-shell-based-os/pico_os.cpp:1604-1619 | the food placement as written tests the draws against the segments before the new head is stored |
| Snake.FoodUnderHeadAsWritten | pico-shell-based-os/pico_os.cpp:1604-1619 | as written, the start snake eating at (11, 7) accepts (11, 7) again, under its own new head |
| Snake.Faster | pico-shell-based-os/pico_os.cpp:1599-1600 | each new segment makes the delay 5 ms shorter, never below 50 ms |
| Snake.Game.constructor | pico-shell-based-os/pico_os.cpp:1496-1519 | the snake starts as (10,7), (9,7), (8,7) moving right with a pending 'd', score 0, a 200 ms delay and food at the first draw |
| Snake.Game.NeverIntoNeck | pico-shell-based-os/pico_os.cpp:1534-1563 | the next head is next to the head and never on the segment behind it |
| Snake.Game.Key | pico-shell-based-os/pico_os.cpp:1533-1545 | a direction key sets the pending direction unless it reverses; q quits only when it is not taken as a direction; nothing else changes |
| Snake.Game.OnBody | pico-shell-based-os/pico_os.cpp:1572-1577 | true exactly when a segment takes the cell |
| Snake.Game.PlaceFood | pico-shell-based-os/pico_os.cpp:1604-1615 | the loop returns FirstFree of the draws against the body |
| Snake.Game.ShiftBody | pico-shell-based-os/pico_os.cpp:1586-1594 | each segment takes the place of the one before it; the head is repeated at index 0 and the rest of the array is untouched |
| Snake.Game.Move | pico-shell-based-os/pico_os.cpp:1549-1622 | the move takes the pending direction; it ends the game exactly when the new head is off the grid or on the body, and then the body, length, score, delay and food are as they were; otherwise they change as Advanced, Faster and FirstFree say, and the snake stays well formed. It applies the two fixes of the findings: a full snake that eats still moves (the source's move is Snake.AdvancedAsWritten), and new food is drawn off the moved snake (the source's is Snake.FoodAsWritten), so after eating the food is never under the snake unless no draw was free |
| Snake.Game.Advance | pico-shell-based-os/pico_os.cpp:1582-1619 | a move that does not crash gives the body Advanced says, adds 10 points and speeds up only when growing, and places new food after the head is stored |
| Snake.Game.MoveBody | pico-shell-based-os/pico_os.cpp:1581-1600 | a move that does not crash gives the body Advanced says and keeps the snake well formed, adds 10 points and speeds up only when growing, and leaves the food where it is |
| Snake.Game.Slide | pico-shell-based-os/pico_os.cpp:1585-1619 | the body moves one place toward the head, growing when asked |
| WebServer.LastDot | pico-shell-based-os/pico_os.cpp:354-355 | strrchr: the index found holds a dot with no dot after it, and there is none exactly when the name has no dot |
| WebServer.TypeOfExtension | pico-shell-based-os/pico_os.cpp:357-368 | the twelve listed extensions have their own type and every other one is application/octet-stream; text/html is .html or .htm and image/jpeg is .jpg or .jpeg |
| WebServer.MimeType | pico-shell-based-os/pico_os.cpp:353-369 | a name without a dot is text/plain; otherwise the type is chosen by the text from the last dot |
| WebServer.MimeByLastDot | pico-shell-based-os/pico_os.cpp:353-369 | only the text from the last dot decides the type, whatever dots come before it |
| WebServer.HtmlPages | pico-shell-based-os/pico_os.cpp:357 | names ending in .html and .htm are both served as text/html |
| WebServer.UnknownExtension | pico-shell-based-os/pico_os.cpp:368 | an extension outside the table is sent as application/octet-stream |
| WebServer.LastDotAt | pico-shell-based-os/pico_os.cpp:354 | a dot with no dot after it is the one strrchr finds |
| WebServer.RequestText | pico-shell-based-os/pico_os.cpp:471-474 | the request is at most 511 bytes of the packet and holds no NUL |
| WebServer.FilePath | pico-shell-based-os/pico_os.cpp:498-503 | "/" names /web/index.html; any other path of at most 127 characters names /web followed by that path; the result fits the 144-byte buffer |
| WebServer.ErrorPage | pico-shell-based-os/pico_os.cpp:372-388 | an error response carries its code and reason and is an HTML page whose heading is the code in decimal, a space and the reason |
| WebServer.ErrorPageNamesCode | pico-shell-based-os/pico_os.cpp:372-379 | the code in the error page's heading reads back as the status code |
| WebServer.FileResponse | pico-shell-based-os/pico_os.cpp:391-452 | a missing file is 404 with the log line "HTTP: File not found"; a file over 65536 bytes is 500; otherwise 200 with the type of the path and the file's content, and one log line that fits 128 bytes |
| WebServer.Handle | pico-shell-based-os/pico_os.cpp:455-514 | 400 exactly when sscanf does not fill all three fields; otherwise the request is logged first, anything but GET is 405, and GET is answered with the file its path maps to |
| WebServer.PathNotCut | pico-shell-based-os/pico_os.cpp:480-503 | the path sscanf reads is never cut when it is put under /web |
| WebServer.GetServesFile | pico-shell-based-os/pico_os.cpp:455-506 | "GET <path> <version>" for a file that exists and fits is answered 200 with that file, typed by its extension |
| WebServer.OtherMethodRefused | pico-shell-based-os/pico_os.cpp:494-495 | any other method word is answered 405 |
| PortScanner.ScanNumber | pico_scanner/scanner.cpp:132 | one "%hu" conversion succeeds exactly when a digit follows the white space and an optional sign; it returns the sign, the value of all the digits there, and the rest of the input after them, shorter than the input and starting with no digit |
| PortScanner.ScanNumberLeavesSuffix | pico_scanner/scanner.cpp:132 | what one "%hu" conversion leaves unread is a suffix of its input |
| PortScanner.ScanNumberOfDecimal | pico_scanner/scanner.cpp:132 | "%hu" reads back a decimal spelling followed by a non-digit or the end, leaving exactly what follows |
| PortScanner.PortRangeAfterNumber | pico_scanner/scanner.cpp:132 | when the first "%hu" leaves a '-' in front of the rest, the start port is stored and the end port is whatever "%hu" reads from after the '-' |
| PortScanner.PortRangeAfterDecimal | pico_scanner/scanner.cpp:132 | after a start port written in decimal and a '-', "%hu-%hu" reads back the start port and reads the end port from the rest |
| PortScanner.PortRangeOfDecimals | pico_scanner/scanner.cpp:132 | "%hu-%hu" reads both numbers back from any range written as "a-b" |
| PortScanner.StoredShort | pico_scanner/scanner.cpp:132 | the value stored in a uint16_t is below 65536, and a typed number in 0..65535 is stored unchanged |
| PortScanner.ScanPortRange | pico_scanner/scanner.cpp:132 | sscanf stops at the first conversion that fails, so the end port is converted only after the start port |
| PortScanner.ValidRangeAsWritten | pico_scanner/scanner.cpp:137 | the test on the stored 16-bit values: start at least 1, end at most 65535, start not after end |
| PortScanner.ValidRange | pico_scanner/scanner.cpp:137-140 | the intended test on the typed numbers: 1 <= start <= end <= 65535 |
| PortScanner.RangeTruncatedAsWritten | pico_scanner/scanner.cpp:132-140 | "1-70000" is read as 1 and 70000; 70000 is stored as 4464, and the test as written accepts 1-4464 |
| PortScanner.SeventyThousand | pico_scanner/scanner.cpp:132 | the five characters 70000 typed in the example range are the decimal spelling of seventy thousand |
| PortScanner.RangeTestsAgree | pico_scanner/scanner.cpp:137-140 | for ranges typed within 0..65535 the test as written and the test on the typed numbers agree |
| PortScanner.ValidRangeStored | pico_scanner/scanner.cpp:132-140 | a range that passes the test is stored exactly as typed and lies within 1..65535, start not after end |
| PortScanner.Decide | pico_scanner/scanner.cpp:112-144 | fewer than three fields is "Invalid format" and stores nothing; a first word other than "scan" (any case) is "Unknown command", and an address inet_aton refuses is "Invalid IP address", both storing and starting nothing; an accepted address leads to the port-range decision; a stored port never exceeds 65535; a scan starts only with an address and a range within 1..65535 |
| PortScanner.DecideRange | pico_scanner/scanner.cpp:131-143 | after a valid address the address is stored; without two port numbers the reply is "Invalid port range"; the scan starts exactly when the typed range is within 1..65535 and not reversed, and then on those ports |
| PortScanner.FieldsOfCommand | pico_scanner/scanner.cpp:115 | a command written with single spaces is read back as its three fields |
| PortScanner.VerbInAnyCase | pico_scanner/scanner.cpp:120-123 | the verb is refused exactly when it is not "scan" in some letter case |
| PortScanner.ScanStartsIffValid | pico_scanner/scanner.cpp:112-144 | "SCAN <ip> <ports>" with a known address is decided by its port range alone |
| PortScanner.RecvBytesWritten | pico_scanner/scanner.cpp:97-99 | recv_callback writes the whole packet and a NUL after it |
| PortScanner.RecvOverflowsBuffer | pico_scanner/scanner.cpp:97-99 | a packet of 256 bytes or more is written past the end of the 256-byte buffer |
| PortScanner.RecvCommand | pico_scanner/scanner.cpp:96-102 | at most 255 bytes of the packet form the command, which has no NUL; a shorter packet is read whole up to its first NUL |
| PortScanner.NextPortAsWritten | pico_scanner/scanner.cpp:207 | current_port++ on the uint16_t counter stays within 0..65535 |
| PortScanner.ScanNeverEndsAsWritten | pico_scanner/scanner.cpp:160-207 | with end_port 65535 the counter never exceeds end_port, and after 65535 comes 0 |
| PortScanner.Scanner.constructor | pico_scanner/scanner.cpp:34-36 | a new scanner is not scanning, with counter and ports at 0 and no open ports |
| PortScanner.Scanner.FinishScan | pico_scanner/scanner.cpp:222-249 | only while scanning: scanning stops and one report of the range size and the open ports is sent; nothing else changes |
| PortScanner.Scanner.ScanNextPort | pico_scanner/scanner.cpp:160-195 | the counter skips exactly the ports whose connect attempt cannot be made; it stops either at a port whose attempt is in flight or past the end of the range, where the scan finishes with one report |
| PortScanner.Scanner.StartScan | pico_scanner/scanner.cpp:146-158 | the scan begins at the start port with no open ports and announces the range before probing |
| PortScanner.Scanner.Connected | pico_scanner/scanner.cpp:197-214 | an open port is reported and appended, the counter moves on, and the ports left to probe go down |
| PortScanner.Scanner.Error | pico_scanner/scanner.cpp:216-220 | the port is skipped, the open ports are unchanged, and the ports left to probe go down |
| PortScanner.Scanner.ParseCommand | pico_scanner/scanner.cpp:112-144 | the address and ports are stored as Decide says, also when the range is then refused; a refusal sends its one reply and leaves the scan alone; otherwise the scan starts on the stored range |
| PortScanner.Scanner.Receive | pico_scanner/scanner.cpp:86-109 | an empty packet changes nothing; a non-empty one is handled as ParseCommand of its first 255 bytes: fields stored as Decide says, a refusal sends exactly its reply and leaves the scan alone, otherwise the scan starts on the stored range |
| PortScanner.Scanner.Disconnect | pico_scanner/scanner.cpp:87-93 | the scan stops with no report and nothing else changes |
| CText.DigitValue | pico-shell-based-os/pico_os.cpp:1851 | a decimal digit's value is below 10 |
| CText.DigitChar | pico-shell-based-os/pico_os.cpp:279 | the digit written for a value below 10 is a digit that reads back as that value |
| CText.Take | pico-shell-based-os/pico_os.cpp:1840 | strncpy/snprintf keep a prefix of min(length, n) characters; the argument array keeps the first min(count, 16) tokens the same way |
| CText.CString | pico-shell-based-os/pico_os.cpp:472-474 | a C string is the prefix before the first NUL: it holds no NUL and is followed by one when shorter than the buffer |
| CText.CStringOfStored | pico_scanner/scanner.cpp:99 | storing a NUL after some text ends the C string no later than that text |
| CText.CStringOfTerminated | pico_os/main.cpp:125 | text without NUL followed by a NUL reads back as that text |
| CText.CStringOfPlain | pico_os/main.cpp:388 | text without NUL is its own C string |
| CText.SkipSpaces | pico_os/main.cpp:388 | skipping white space removes only white space and leaves what is empty or starts with a non-blank |
| CText.SkipSpacesIsSuffix | pico_os/main.cpp:388 | what skipping white space leaves is a suffix of the input |
| CText.WordPrefix | pico_os/main.cpp:388 | the longest run of at most width non-blank characters at the front |
| CText.ScanWord | pico_os/main.cpp:388 | "%Ns" reads a non-empty word of at most N characters after the white space and leaves the rest; the word is the longest such run, so it stops at N characters, at white space or at the end; it fails exactly when only white space is left |
| CText.ScanWords | pico_scanner/scanner.cpp:115 | sscanf with several "%Ns" fields fills at most that many fields, each a word within its width |
| CText.SkipSpacesOfWord | pico_scanner/scanner.cpp:115 | text that starts with a word has no leading white space |
| CText.WordPrefixOfWord | pico_scanner/scanner.cpp:115 | a word that fits its width and is followed by a blank or the end is read whole |
| CText.SkipOneSpace | pico_scanner/scanner.cpp:115 | a leading space is skipped |
| CText.ScanJoinedWords | pico_scanner/scanner.cpp:115 | words that fit their widths, joined by single spaces, are read back exactly |
| CText.ScanSkipsSpace | pico_scanner/scanner.cpp:115 | a leading space does not change what sscanf reads |
| CText.LeadingDigits | shell-based-pico-os/pico_os.cpp:759 | the digits at the front, up to the first character that is not a digit |
| CText.Decimal | pico-shell-based-os/pico_os.cpp:448 | "%d" of a non-negative value is a non-empty run of digits without a leading zero |
| CText.DecimalValueOfDecimal | pico-shell-based-os/pico_os.cpp:448 | the digits "%d" writes read back as the value |
| CText.LeadingDigitsOfDigits | shell-based-pico-os/pico_os.cpp:759 | a string of digits is all leading digits |
| CText.LeadingDigitsBefore | pico_scanner/scanner.cpp:132 | the leading digits of digits followed by a non-digit are exactly those digits |
| CText.SignedDecimal | pico-shell-based-os/pico_os.cpp:2353 | "%+d" always writes a sign and at least one digit |
| CText.Atoi | shell-based-pico-os/pico_os.cpp:648 | atoi skips blanks; it is 0 when no sign or digit follows, at most 0 after a minus sign and at least 0 otherwise |
| CText.AtoiOfSignedDecimal | pico-shell-based-os/pico_os.cpp:2352-2353 | atoi reads back what "%+d" writes, for every value |
| CText.AtoiOfDecimal | shell-based-pico-os/pico_os.cpp:648 | atoi reads back what "%d" writes for a non-negative value |
| CText.ZeroPadded | pico-shell-based-os/pico_os.cpp:279 | "%02d" writes exactly max(width, digits) characters: the decimal digits with zeros in front up to the width |
| CText.Lower | pico_os/main.cpp:390 | tolower of every character: the length is unchanged, no capital is left, each capital becomes its small letter and every other character is kept |
| CText.LowerIdempotent | pico_os/main.cpp:390 | lower-casing an already lower-cased word changes nothing |
| CText.LinePrefix | pico_os/main.cpp:388 | the longest run of at most width characters before a newline |
| CText.ScanRestOfLine | pico_os/main.cpp:388 | "%N[^\n]" after a space reads at most N characters, none a newline, starting at the first non-blank, and at least one when there is one; it stops only at N characters, at a newline or at the end |

## Left out

- All printing and ANSI rendering: help texts, banners, game screens, the
  ASCII-art tables, HTML/CSS page text. The log lines the HTTP server writes
  and the scanner's replies are kept, the scanner's replies as a `Message`
  datatype rather than as text.
- lwIP, cyw43, DNS and WiFi plumbing: PCB setup, `tcp_write`/`tcp_output`,
  `accept_callback` and its banner, `client_pcb`, `active_connections`,
  `http_err_callback`, and the shell's own `scan_port`/ping. Their outcomes are
  parameters.
- LittleFS mount, format and the flash callbacks. Files are a map from path
  to content. `nano_editor` writing its buffer to a file is not modelled.
- The `lfs_file_read` and `malloc` failures of `send_file_response`. Reads
  always succeed in the model.
- `multicore_launch_core1`/`multicore_reset_core1` of the second shell's
  process functions. This is concurrency. Only the first shell's table
  bookkeeping is modelled.
- `sleep_ms`, `getchar_timeout_us`, the main loops' timing, and
  `absolute_time` arithmetic. Clock readings are parameters.
- The game loops themselves. For Tetris the model has the board operations,
  the spawn (`Tetris.Piece.constructor`) and the scoring (`Tetris.Landed`),
  but not the key handling, the automatic drop and the game-over test
  around them. For the snake it has one key (`Snake.Game.Key`) and one move
  (`Snake.Game.Move`) at a time.
- `rand()`: piece types and food cells are parameters.
- `gmtime`/`localtime`/`strftime`, which are libc conversions. The shells'
  `time_t` is unbounded in the model.
- The scanner's progress messages, which use float arithmetic, its
  elapsed-time report, the `ipaddr_ntoa` text of the target, and the
  `sleep_ms` between probes.
- The `Scanning` reply of the scanner carries the port range but not the IP text.
- Snake.FirstFree: when every drawn cell is taken, the food placement in
  the source loops forever. The model takes a finite list of draws, and the
  food stays where it was if all of them are taken.
- CText.Atoi: overflow of `int` in atoi/strtol is undefined behaviour and
  is not modelled. Values are unbounded; the two places where the source
  stores the result in an unsigned type (`blink_set_speed`, `%hu`) reduce it
  explicitly.
- ShellTime.WallTime.CurrentTime: requires that the boot clock has not gone
  back since the time was set. The source relies on the clock being monotonic.
- LineInput.LineReader.ReadLineSecond: the second shell's `read_line`
  alternates between two static buffers. The model uses one buffer and
  describes the line returned, not which buffer holds it.
- NanoEditor.Collect: like the `read_line` models, returns None when the keys
  or lines run out before the line ends. The source would go on waiting.
- The `nano` editor of the second shell is not modelled. Only the first
  shell's `nano_editor` content loop is.
- pico_webserver/pico_webserver.cpp: a GET-prefix check in front of a canned
  lwIP response. blink/blink.cpp only sets up the hardware. Neither is modelled.
- PortScanner.Scanner.ScanNextPort: the port counter is an unbounded
  integer rather than the source's `uint16_t`. This is the corrected
  behaviour; the wrap-around is the finding below.
- PortScanner.Scanner.Connected: the model takes `tcp_abort` to call no
  callback. In lwIP, `tcp_abort` calls the PCB's error callback with
  ERR_ABRT, which for the scanner is `static_scan_error`. That would move
  the counter a second time and start a second probe, both after an open
  port (scanner.cpp:197-212) and after a failed `tcp_connect`
  (scanner.cpp:185-193). lwIP is not part of this model, so
  `PortScanner.Scanner.Connected` and `PortScanner.Scanner.ScanNextPort`
  move the counter by one per probe.
- LineInput.CommandLine.Run: sees only the keys that shell_loop reads
  itself. Commands that read keys of their own (todo, nano, the games, the
  `read_line` prompts) do not take keys out of the stream in the model.
- WebTerminal.Terminal.ProcessCommand: the replies written to the output
  ring are not modelled, so its contract says the ring changes only on
  `clear`, which is not what the source does. In the source almost every
  command replies through output_write: `status`, `apps`, `current`,
  `help`, `list` and `show`, and also `run`, `stop`, `add`, `done`,
  `del` and `speed`, with their confirmations and error messages. The
  model decides each command and its effect on the applications but
  writes none of this text. `reboot` (watchdog reset) is left out.

## Findings

| source | as written | input that shows it | evidently intended | confidence | as-written member | corrected member |
|---|---|---|---|---|---|---|
| pico-shell-based-os/pico_os.cpp:1432-1433 | `drop_interval = 1000 - (level - 1) * 100` is computed in int and stored in a `uint32_t`, and only then compared with 100 | level 12 (110 lines cleared): the interval becomes 4294967196 ms, so the piece stops falling on its own | the interval stays at 100 ms from level 10 on | not executed | Tetris.DropStallsAtLevel12 | Tetris.DropInterval |
| pico-shell-based-os/pico_os.cpp:1589-1619 | when a 100-segment snake eats, the body is not shifted, but `snake[0]` is still overwritten with the new head | a contiguous 100-segment snake eating: the new head is two steps from `snake[1]`, so the body is torn | the snake moves as usual and only stops growing | not executed | Snake.FullSnakeTornAsWritten | Snake.Advanced |
| pico-shell-based-os/pico_os.cpp:1604-1618 | new food is tested against the segments before `snake[0]` gets the new head | start snake (10,7),(9,7),(8,7) eats at (11,7), and the first draw is (11,7): the food is placed under the head | the food is never placed on the snake | not executed | Snake.FoodUnderHeadAsWritten | Snake.Game.PlaceFood |
| pico_scanner/scanner.cpp:160-207 | `current_port` is a `uint16_t`, and the scan ends when `current_port > end_port` | "SCAN <ip> 65500-65535": after 65535 the counter wraps to 0 and is never above 65535, so the scan never finishes | the scan ends after probing end_port | not executed | PortScanner.ScanNeverEndsAsWritten | PortScanner.Scanner.ScanNextPort |
| pico_scanner/scanner.cpp:132-140 | `%hu` truncates to 16 bits, so `end_port > 65535` can never hold | "SCAN <ip> 1-70000": 70000 is stored as 4464, and ports 1..4464 are scanned | the range 1-70000 is refused as outside 1..65535 | not executed | PortScanner.RangeTruncatedAsWritten | PortScanner.DecideRange |
| pico_scanner/scanner.cpp:96-99 | the whole packet of `tot_len` bytes and a NUL are written into a 256-byte stack buffer | any command packet of 256 bytes or more writes past the buffer | at most 255 bytes are copied and then NUL-terminated | not executed | PortScanner.RecvOverflowsBuffer | PortScanner.RecvCommand |
