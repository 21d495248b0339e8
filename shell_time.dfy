/**
 * The wall clock of the shell firmwares: a Unix time set by NTP together
 * with the boot-clock reading at which it was set, read back by adding
 * the whole seconds elapsed since. A stored time of 0 means "not set yet".
 * Also the timezone setting and the time-of-day stamp log_message uses.
 *
 * The first shell clamps the timezone offset to -12..+14 and keeps a label
 * "UTC%+d"; the second stores whatever atoi returns.
 */
module ShellTime {
  import opened CText
  import opened Ntp
  import opened SystemLog

  const MIN_TIMEZONE: int := -12
  const MAX_TIMEZONE: int := 14
  const SECONDS_PER_DAY: int := 86400
  /** Size of timezone_str. */
  const TIMEZONE_LABEL_SIZE: int := 32

  /** The offset the first shell keeps for a typed value. */
  function ClampTimezone(v: int): (z: int)
    ensures MIN_TIMEZONE <= z <= MAX_TIMEZONE
    ensures MIN_TIMEZONE <= v <= MAX_TIMEZONE ==> z == v
    ensures v < MIN_TIMEZONE ==> z == MIN_TIMEZONE
    ensures v > MAX_TIMEZONE ==> z == MAX_TIMEZONE
  {
    if v < MIN_TIMEZONE then MIN_TIMEZONE else if v > MAX_TIMEZONE then MAX_TIMEZONE else v
  }

  /** snprintf(timezone_str, 32, "UTC%+d", z). */
  function TimezoneLabel(z: int): (s: string)
    requires MIN_TIMEZONE <= z <= MAX_TIMEZONE
    ensures 3 <= |s| < TIMEZONE_LABEL_SIZE && s[..3] == "UTC"
    ensures Atoi(s[3..]) == z
  {
    var d := SignedDecimal(z);
    assert ("UTC" + d)[3..] == d;
    AtoiOfSignedDecimal(z);
    DecimalShort(if z >= 0 then z else -z);
    "UTC" + d
  }

  /** A value below 100 takes at most two digits. */
  lemma DecimalShort(n: nat)
    requires n < 100
    ensures |Decimal(n)| <= 2
  {
    if n >= 10 {
      assert Decimal(n) == Decimal(n / 10) + [DigitChar(n % 10)];
    }
  }

  /** Clamping a value already in range, or a second time, changes nothing. */
  lemma ClampIdempotent(v: int)
    ensures ClampTimezone(ClampTimezone(v)) == ClampTimezone(v)
  {
  }

  /**
   * localtime's hour, minute and second (the firmware sets no TZ, so
   * local time is UTC): the time of day of a Unix time.
   */
  function TimeOfDay(now: int): (s: Stamp)
    ensures s.WallClock? && s.hour < 24 && s.minute < 60 && s.second < 60
    ensures (s.hour * 3600 + s.minute * 60 + s.second - now) % SECONDS_PER_DAY == 0
  {
    var t := now % SECONDS_PER_DAY;
    WallClock(t / 3600, (t % 3600) / 60, t % 60)
  }

  /**
   * log_message's stamp: before the clock is set (time 0) the 32-bit ms
   * since boot, in whole seconds; after, the time of day.
   */
  function LogStamp(now: int, bootUs: nat): (s: Stamp)
    ensures s.Uptime? <==> now == 0
    ensures s.Uptime? ==> s.seconds == ((bootUs / 1000) % UINT32_MOD) / 1000 && s.seconds < 4294968
  {
    if now == 0 then Uptime(((bootUs / 1000) % UINT32_MOD) / 1000) else TimeOfDay(now)
  }

  /** The clock and timezone globals of a shell. */
  class WallTime {
    var systemTimeOffset: int
    var timeSyncBaseUs: nat
    var ntpSynced: bool
    var timezoneOffset: int
    var timezoneStr: string

    constructor ()
      ensures systemTimeOffset == 0 && !ntpSynced && timezoneOffset == 0 && timezoneStr == "GMT"
    {
      systemTimeOffset, timeSyncBaseUs, ntpSynced := 0, 0, false;
      timezoneOffset, timezoneStr := 0, "GMT";
    }

    /**
     * get_current_time: 0 until set; otherwise the stored time plus the
     * whole seconds since the boot clock read timeSyncBaseUs (the boot
     * clock never goes back).
     */
    method CurrentTime(nowUs: nat) returns (t: int)
      requires timeSyncBaseUs <= nowUs
      ensures systemTimeOffset == 0 ==> t == 0
      ensures systemTimeOffset != 0 ==> t == systemTimeOffset + (nowUs - timeSyncBaseUs) / 1000000
    {
      if systemTimeOffset == 0 {
        return 0;
      }
      var elapsedMs := (nowUs - timeSyncBaseUs) / 1000;
      MillisToSeconds(nowUs - timeSyncBaseUs);
      t := systemTimeOffset + elapsedMs / 1000;
    }

    /** set_current_time: the clock reads newTime now. */
    method SetCurrentTime(newTime: int, nowUs: nat)
      modifies this
      ensures systemTimeOffset == newTime && timeSyncBaseUs == nowUs && ntpSynced
      ensures timezoneOffset == old(timezoneOffset) && timezoneStr == old(timezoneStr)
    {
      systemTimeOffset := newTime;
      timeSyncBaseUs := nowUs;
      ntpSynced := true;
    }

    /**
     * ntp_recv_callback of both shells: a packet of at least 48 bytes sets
     * the clock to the converted server time and logs "NTP time
     * synchronized" with a stamp from the time just set; a shorter packet
     * changes nothing.
     */
    method NtpReceive(packet: seq<Byte>, nowUs: nat, log: Log)
      requires log.Valid() && log.SlotsHoldRecent()
      modifies this, log, log.entries
      ensures log.Valid() && log.SlotsHoldRecent() && log.entries == old(log.entries)
      ensures timezoneOffset == old(timezoneOffset) && timezoneStr == old(timezoneStr)
      ensures ShellUnixTime(packet, old(timezoneOffset)).None? ==>
        systemTimeOffset == old(systemTimeOffset) && timeSyncBaseUs == old(timeSyncBaseUs)
        && ntpSynced == old(ntpSynced) && log.history == old(log.history)
      ensures ShellUnixTime(packet, old(timezoneOffset)).Some? ==>
        var unix := ShellUnixTime(packet, old(timezoneOffset)).value;
        systemTimeOffset == unix && timeSyncBaseUs == nowUs && ntpSynced
        && log.history == old(log.history) + [FormatEntry(LogStamp(unix, nowUs), "NTP time synchronized")]
    {
      var unix := ShellUnixTime(packet, timezoneOffset);
      if unix.Some? {
        var u := unix.value;
        SetCurrentTime(u, nowUs);
        var now := CurrentTime(nowUs);
        assert now == u;
        Synchronized(log, LogStamp(now, nowUs));
      }
    }

    /** The log line of a successful synchronisation. */
    static method Synchronized(log: Log, stamp: Stamp)
      requires log.Valid() && log.SlotsHoldRecent()
      modifies log, log.entries
      ensures log.Valid() && log.SlotsHoldRecent() && log.entries == old(log.entries)
      ensures log.history == old(log.history) + [FormatEntry(stamp, "NTP time synchronized")]
    {
      log.LogMessage(stamp, "NTP time synchronized");
    }

    /** Settings option 2 of the first shell: clamp the typed offset and relabel. */
    method SetTimezoneClamped(input: string)
      modifies this
      ensures timezoneOffset == ClampTimezone(Atoi(input)) && timezoneStr == TimezoneLabel(timezoneOffset)
      ensures systemTimeOffset == old(systemTimeOffset) && timeSyncBaseUs == old(timeSyncBaseUs) && ntpSynced == old(ntpSynced)
    {
      timezoneOffset := Atoi(input);
      if timezoneOffset < MIN_TIMEZONE {
        timezoneOffset := MIN_TIMEZONE;
      }
      if timezoneOffset > MAX_TIMEZONE {
        timezoneOffset := MAX_TIMEZONE;
      }
      timezoneStr := TimezoneLabel(timezoneOffset);
    }

    /** Settings option 2 of the second shell: the typed offset as atoi reads it, no clamp. */
    method SetTimezoneUnclamped(input: string)
      modifies this
      ensures timezoneOffset == Atoi(input) && timezoneStr == old(timezoneStr)
      ensures systemTimeOffset == old(systemTimeOffset) && timeSyncBaseUs == old(timeSyncBaseUs) && ntpSynced == old(ntpSynced)
    {
      timezoneOffset := Atoi(input);
    }
  }

  /** Whole milliseconds, then whole seconds of those, are the whole seconds. */
  lemma MillisToSeconds(us: nat)
    ensures (us / 1000) / 1000 == us / 1000000
  {
    var q := us / 1000000;
    var r := us % 1000000;
    assert us == q * 1000000 + r;
    assert us / 1000 == q * 1000 + r / 1000;
  }

  /** The label the first shell shows reads back as the offset it keeps. */
  lemma LabelReadsBack(input: string)
    ensures Atoi(TimezoneLabel(ClampTimezone(Atoi(input)))[3..]) == ClampTimezone(Atoi(input))
  {
  }

  /**
   * The second shell accepts any offset, and an offset beyond 14 hours
   * moves the NTP time further than any real timezone: "100" puts the
   * clock 100 hours ahead.
   */
  lemma UnclampedOffsetAccepted()
    ensures Atoi("100") == 100 && ClampTimezone(Atoi("100")) == MAX_TIMEZONE
  {
    AtoiOfDecimal(100);
    assert Decimal(100) == "100" by {
      assert Decimal(10) == "10";
    }
  }
}
