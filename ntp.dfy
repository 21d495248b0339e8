/**
 * The NTP arithmetic shared by the clock-setting code of the firmwares: the
 * client request, the seconds field of the server's Transmit Timestamp and
 * its conversion to Unix time. The field is the first 32-bit word of the
 * Transmit Timestamp, bytes 40..43 of the 48-byte header, in network
 * (big-endian) order (section 7.3 of RFC 5905); NTP counts seconds from
 * 1900 and Unix from 1970, 2208988800 seconds apart (section 6 of RFC 5905).
 *
 * The three programs differ in what packet they accept and in the C types
 * of the subtraction, and so in how a result outside 0..2^32-1 comes out.
 */
module Ntp {
  import opened CText

  const NTP_PACKET_SIZE: int := 48
  const NTP_DELTA: int := 2208988800
  const TRANSMIT_SECONDS_OFFSET: int := 40
  const SECONDS_PER_HOUR: int := 3600

  /** Four bytes in network order as an unsigned 32-bit value (ntohl). */
  function BigEndian32(b0: Byte, b1: Byte, b2: Byte, b3: Byte): (v: nat)
    ensures v < UINT32_MOD
  {
    ((b0 * 256 + b1) * 256 + b2) * 256 + b3
  }

  /** The four bytes that encode v in network order. */
  function Bytes32(v: nat): (b: seq<Byte>)
    requires v < UINT32_MOD
    ensures |b| == 4
  {
    var q1 := v / 256;
    var q2 := q1 / 256;
    [q2 / 256, q2 % 256, q1 % 256, v % 256]
  }

  lemma BigEndian32OfBytes(v: nat)
    requires v < UINT32_MOD
    ensures var b := Bytes32(v); BigEndian32(b[0], b[1], b[2], b[3]) == v
  {
    var q1 := v / 256;
    var q2 := q1 / 256;
    assert v == q1 * 256 + v % 256;
    assert q1 == q2 * 256 + q1 % 256;
    assert q2 == (q2 / 256) * 256 + q2 % 256;
  }

  lemma BytesOfBigEndian32(b0: Byte, b1: Byte, b2: Byte, b3: Byte)
    ensures Bytes32(BigEndian32(b0, b1, b2, b3)) == [b0, b1, b2, b3]
  {
    var a1 := b0 * 256 + b1;
    var a2 := a1 * 256 + b2;
    ShiftOutByte(a2, b3);
    ShiftOutByte(a1, b2);
    ShiftOutByte(b0, b1);
  }

  /** Dividing x * 256 + b by 256 gives back x and b. */
  lemma ShiftOutByte(x: nat, b: Byte)
    ensures (x * 256 + b) / 256 == x && (x * 256 + b) % 256 == b
  {
  }

  /** The seconds of the Transmit Timestamp in a packet of at least 48 bytes. */
  function TransmitSeconds(packet: seq<Byte>): (s: nat)
    requires |packet| >= NTP_PACKET_SIZE
    ensures s < UINT32_MOD
    ensures Bytes32(s) == packet[TRANSMIT_SECONDS_OFFSET..TRANSMIT_SECONDS_OFFSET + 4]
  {
    BytesOfBigEndian32(packet[40], packet[41], packet[42], packet[43]);
    BigEndian32(packet[40], packet[41], packet[42], packet[43])
  }

  /** A 48-byte reply whose Transmit Timestamp seconds are `seconds`, other bytes zero. */
  function ReplyWithSeconds(seconds: nat): (p: seq<Byte>)
    requires seconds < UINT32_MOD
    ensures |p| == NTP_PACKET_SIZE
  {
    seq(40, _ => 0) + Bytes32(seconds) + seq(4, _ => 0)
  }

  lemma TransmitSecondsOfReply(seconds: nat)
    requires seconds < UINT32_MOD
    ensures TransmitSeconds(ReplyWithSeconds(seconds)) == seconds
  {
    var p := ReplyWithSeconds(seconds);
    assert p[40..44] == Bytes32(seconds);
    BigEndian32OfBytes(seconds);
  }

  /**
   * The client request of ascii_clock's ntp_request and pico_os's
   * ntp_send_request: 48 zero bytes except the first, 0x1b.
   */
  function ClientRequest(): (p: seq<Byte>)
    ensures |p| == NTP_PACKET_SIZE
    // leap indicator 0, version 3, mode 3 (client)
    ensures p[0] / 64 == 0 && (p[0] / 8) % 8 == 3 && p[0] % 8 == 3
    ensures forall i :: 1 <= i < |p| ==> p[i] == 0
  {
    [0x1b] + seq(47, _ => 0)
  }

  /**
   * ntp_recv_callback of both shell firmwares: a packet of at least 48
   * bytes sets the clock to seconds - 2208988800 + offset*3600, where every
   * operand is converted to a 32-bit unsigned long, so the result is taken
   * modulo 2^32. Shorter packets are ignored.
   */
  function ShellUnixTime(packet: seq<Byte>, timezoneOffset: int): (t: Option<nat>)
    ensures t.Some? <==> |packet| >= NTP_PACKET_SIZE
    ensures t.Some? ==> t.value < UINT32_MOD
    ensures t.Some? ==> (t.value - (TransmitSeconds(packet) - NTP_DELTA + timezoneOffset * SECONDS_PER_HOUR)) % UINT32_MOD == 0
  {
    if |packet| < NTP_PACKET_SIZE then None
    else
      var x := TransmitSeconds(packet) - NTP_DELTA + timezoneOffset * SECONDS_PER_HOUR;
      Wrap32Congruent(x);
      Some(x % UINT32_MOD)
  }

  /**
   * ntp_recv of ascii_clock: only a packet of exactly 48 bytes is used, and
   * NTP_DELTA is a 64-bit constant, so the difference is signed.
   */
  function ClockUnixTime(packet: seq<Byte>, offset: int): (t: Option<int>)
    ensures t.Some? <==> |packet| == NTP_PACKET_SIZE
    ensures t.Some? ==> t.value + NTP_DELTA - offset == TransmitSeconds(packet)
  {
    if |packet| != NTP_PACKET_SIZE then None
    else Some(TransmitSeconds(packet) - NTP_DELTA + offset)
  }

  /**
   * ntp_recv of pico_os: only a packet of exactly 48 bytes is used; the
   * subtraction of 2208988800U is unsigned 32-bit.
   */
  function TerminalBaseTime(packet: seq<Byte>): (t: Option<nat>)
    ensures t.Some? <==> |packet| == NTP_PACKET_SIZE
    ensures t.Some? ==> t.value < UINT32_MOD && (t.value + NTP_DELTA - TransmitSeconds(packet)) % UINT32_MOD == 0
  {
    if |packet| != NTP_PACKET_SIZE then None
    else
      var x := TransmitSeconds(packet) - NTP_DELTA;
      Wrap32Congruent(x);
      Some(x % UINT32_MOD)
  }

  /** Reducing modulo 2^32 changes a value by a multiple of 2^32. */
  lemma Wrap32Congruent(x: int)
    ensures 0 <= x % UINT32_MOD < UINT32_MOD && (x % UINT32_MOD - x) % UINT32_MOD == 0
  {
    var q := x / UINT32_MOD;
    assert x % UINT32_MOD - x == (-q) * UINT32_MOD;
  }

  /** A value in -2^32..-1 wraps to itself plus 2^32. */
  lemma Wrap32Negative(x: int)
    requires -UINT32_MOD <= x < 0
    ensures x % UINT32_MOD == x + UINT32_MOD
  {
  }

  /**
   * For any server time from 1970 up to the end of the 32-bit NTP era the
   * three conversions agree with the exact difference (no wrap happens).
   */
  lemma ConversionsAgreeInEra(unix: nat)
    requires unix + NTP_DELTA < UINT32_MOD
    ensures ShellUnixTime(ReplyWithSeconds(unix + NTP_DELTA), 0) == Some(unix)
    ensures ClockUnixTime(ReplyWithSeconds(unix + NTP_DELTA), 0) == Some(unix)
    ensures TerminalBaseTime(ReplyWithSeconds(unix + NTP_DELTA)) == Some(unix)
  {
    TransmitSecondsOfReply(unix + NTP_DELTA);
  }

  /**
   * A timestamp before 1970 comes out negative in ascii_clock, but wraps to
   * a time between 2036 and 2106 in the unsigned variants.
   */
  lemma PreEpochWraps(seconds: nat)
    requires seconds < NTP_DELTA
    ensures ClockUnixTime(ReplyWithSeconds(seconds), 0) == Some(seconds - NTP_DELTA)
    ensures TerminalBaseTime(ReplyWithSeconds(seconds)) == Some(seconds - NTP_DELTA + UINT32_MOD)
  {
    TransmitSecondsOfReply(seconds);
    Wrap32Negative(seconds - NTP_DELTA);
  }
}
