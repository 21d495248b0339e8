/**
 * The TCP port scanner of pico_scanner: a client sends
 * "SCAN <ip> <start>-<end>", the scanner checks it and then probes the
 * ports of the range one at a time, each probe ending in a connect
 * callback, an error callback or a failed connect attempt, and reports the
 * open ports when the range is done.
 *
 * ipaddr_aton and the success of each tcp_new/tcp_connect call are
 * parameters; the replies sent to the client are recorded as messages.
 */
module PortScanner {
  import opened CText

  /** Size of the receive buffer of recv_callback. */
  const RECV_BUFFER_SIZE: int := 256
  /** The widths of "%15s %31s %31s". */
  const COMMAND_WIDTHS: seq<nat> := [15, 31, 31]
  const USHORT_MOD: int := 0x1_0000
  const MAX_PORT: int := 65535

  /** What the scanner sends back. */
  datatype Message =
    | InvalidFormat
    | UnknownCommand
    | InvalidIp
    | InvalidRangeFormat
    | InvalidRange
    | Scanning(first: int, last: int)
    | PortOpen(port: int)
    | Complete(scanned: int, open: seq<int>)

  // ----- "%hu-%hu" -----

  /**
   * One "%hu" conversion: skip white space, an optional sign, then at
   * least one digit. The sign, the digits' value and the rest are returned.
   */
  function ScanNumber(s: string): (r: Option<(bool, nat, string)>)
    ensures r.Some? ==> |r.value.2| < |s|
    ensures r.Some? ==> r.value.2 == [] || !IsDigit(r.value.2[0])
    ensures var t := SkipSpaces(s);
      var u := if t != [] && (t[0] == '-' || t[0] == '+') then t[1..] else t;
      (r.None? <==> (u == [] || !IsDigit(u[0])))
      && (r.Some? ==> r.value.0 == (t[0] == '-') && r.value.1 == DecimalValue(LeadingDigits(u)))
  {
    var t := SkipSpaces(s);
    var neg := t != [] && t[0] == '-';
    var u := if t != [] && (t[0] == '-' || t[0] == '+') then t[1..] else t;
    var d := LeadingDigits(u);
    if d == [] then None else Some((neg, DecimalValue(d), u[|d|..]))
  }

  /** What "%hu" leaves unread is a suffix of its input. */
  lemma ScanNumberLeavesSuffix(s: string)
    ensures ScanNumber(s).Some? ==> ScanNumber(s).value.2 == s[|s| - |ScanNumber(s).value.2|..]
  {
    var t := SkipSpaces(s);
    var u := if t != [] && (t[0] == '-' || t[0] == '+') then t[1..] else t;
    SkipSpacesIsSuffix(s);
    assert u == s[|s| - |u|..];
  }

  /** Round trip: "%hu" reads back a decimal spelling followed by a non-digit or the end. */
  lemma ScanNumberOfDecimal(n: nat, rest: string)
    requires rest == [] || !IsDigit(rest[0])
    ensures ScanNumber(Decimal(n) + rest) == Some((false, n, rest))
  {
    var s := Decimal(n) + rest;
    assert SkipSpaces(s) == s by {
      assert IsDigit(s[0]);
    }
    LeadingDigitsBefore(Decimal(n), rest);
    DecimalValueOfDecimal(n);
    assert s[|Decimal(n)|..] == rest;
  }

  /** The number as typed. */
  function Typed(n: (bool, nat)): int {
    if n.0 then -(n.1 as int) else n.1
  }

  /**
   * The value "%hu" stores: strtoul's result (saturated at 2^32 - 1, a
   * minus sign negating modulo 2^32) cut to 16 bits.
   */
  function StoredShort(n: (bool, nat)): (v: nat)
    ensures v < USHORT_MOD
    ensures 0 <= Typed(n) <= MAX_PORT ==> v == Typed(n)
  {
    if n.1 >= UINT32_MOD then MAX_PORT else Typed(n) % USHORT_MOD
  }

  /** The conversions sscanf(ports, "%hu-%hu") makes: it stops at the first that fails. */
  datatype PortFields = PortFields(first: Option<(bool, nat)>, second: Option<(bool, nat)>)

  function ScanPortRange(s: string): (r: PortFields)
    ensures r.first.None? ==> r.second.None?
  {
    match ScanNumber(s)
    case None => PortFields(None, None)
    case Some((neg, mag, rest)) =>
      if rest == [] || rest[0] != '-' then PortFields(Some((neg, mag)), None)
      else match ScanNumber(rest[1..])
        case None => PortFields(Some((neg, mag)), None)
        case Some((neg2, mag2, _)) => PortFields(Some((neg, mag)), Some((neg2, mag2)))
  }

  /** Round trip: "%hu-%hu" reads back both numbers of a range written as "a-b". */
  lemma PortRangeOfDecimals(a: nat, b: nat)
    ensures ScanPortRange(Decimal(a) + "-" + Decimal(b)) == PortFields(Some((false, a)), Some((false, b)))
  {
    PortRangeAfterDecimal(a, Decimal(b));
    assert Decimal(b) == Decimal(b) + [];
    ScanNumberOfDecimal(b, []);
  }

  /** After a decimal start port and a '-', the end port is whatever "%hu" reads from the rest. */
  lemma PortRangeAfterDecimal(a: nat, tail: string)
    ensures var p := ScanPortRange(Decimal(a) + "-" + tail);
      p.first == Some((false, a))
      && p.second == match ScanNumber(tail) case None => None case Some((neg, mag, _)) => Some((neg, mag))
  {
    var rest := "-" + tail;
    assert Decimal(a) + "-" + tail == Decimal(a) + rest;
    ScanNumberOfDecimal(a, rest);
    PortRangeAfterNumber(Decimal(a) + rest, (false, a), tail);
  }

  lemma PortRangeAfterNumber(s: string, first: (bool, nat), tail: string)
    requires ScanNumber(s) == Some((first.0, first.1, "-" + tail))
    ensures var p := ScanPortRange(s);
      p.first == Some(first)
      && p.second == match ScanNumber(tail) case None => None case Some((neg, mag, _)) => Some((neg, mag))
  {
    assert ("-" + tail)[1..] == tail;
  }

  /** The range test as written, on the stored 16-bit values: `end_port > 65535` can never hold. */
  predicate ValidRangeAsWritten(first: nat, last: nat) {
    !(first < 1 || last > MAX_PORT || first > last)
  }

  /**
   * "1-70000" passes the range test as written: 70000 is stored as 4464,
   * so ports 1..4464 are scanned instead of the range being refused.
   */
  lemma RangeTruncatedAsWritten()
    ensures ScanPortRange("1-70000") == PortFields(Some((false, 1)), Some((false, 70000)))
    ensures StoredShort((false, 70000)) == 4464 && ValidRangeAsWritten(1, 4464)
  {
    assert "1-70000" == Decimal(1) + "-" + Decimal(70000) by {
      SeventyThousand();
    }
    PortRangeOfDecimals(1, 70000);
    assert StoredShort((false, 70000)) == 4464 by {
      assert Typed((false, 70000)) == 70000 == 1 * USHORT_MOD + 4464;
    }
  }

  /** "%d" writes seventy thousand as the five characters 70000. */
  lemma SeventyThousand()
    ensures Decimal(70000) == "70000"
  {
    assert Decimal(7) == "7";
    assert Decimal(70) == "70";
    assert Decimal(700) == "700";
    assert Decimal(7000) == "7000";
  }

  /** The range test on the numbers as typed: 1 <= start <= end <= 65535. */
  predicate ValidRange(first: (bool, nat), last: (bool, nat)) {
    1 <= Typed(first) <= Typed(last) <= MAX_PORT
  }

  /** The two tests agree on every range typed within 0..65535. */
  lemma RangeTestsAgree(first: (bool, nat), last: (bool, nat))
    requires 0 <= Typed(first) <= MAX_PORT && 0 <= Typed(last) <= MAX_PORT
    ensures ValidRange(first, last) == ValidRangeAsWritten(StoredShort(first), StoredShort(last))
  {
  }

  /** A range that passes the test is stored exactly as typed. */
  lemma ValidRangeStored(first: (bool, nat), last: (bool, nat))
    requires ValidRange(first, last)
    ensures StoredShort(first) == Typed(first) && StoredShort(last) == Typed(last)
    ensures 1 <= StoredShort(first) <= StoredShort(last) <= MAX_PORT
  {
  }

  // ----- parse_command -----

  /**
   * What parse_command decides for a command line: the reply it sends (None
   * when a scan starts) and the address and ports it stores on the way;
   * sscanf stores each port it converts, also when the range is refused.
   */
  datatype Decision = Decision(reply: Option<Message>, ip: Option<int>, first: Option<nat>, last: Option<nat>)

  function Decide(cmd: string, aton: string -> Option<int>): (d: Decision)
    ensures |ScanWords(cmd, COMMAND_WIDTHS)| != 3 ==> d == Decision(Some(InvalidFormat), None, None, None)
    ensures (d.first.Some? ==> d.first.value <= MAX_PORT) && (d.last.Some? ==> d.last.value <= MAX_PORT)
    ensures d.reply.None? ==> (d.ip.Some? && d.first.Some? && d.last.Some?
      && 1 <= d.first.value <= d.last.value <= MAX_PORT)
    ensures var f := ScanWords(cmd, COMMAND_WIDTHS);
      |f| == 3 && Lower(f[0]) != "scan" ==> d == Decision(Some(UnknownCommand), None, None, None)
    ensures var f := ScanWords(cmd, COMMAND_WIDTHS);
      |f| == 3 && Lower(f[0]) == "scan" && aton(f[1]).None? ==> d == Decision(Some(InvalidIp), None, None, None)
    ensures var f := ScanWords(cmd, COMMAND_WIDTHS);
      |f| == 3 && Lower(f[0]) == "scan" && aton(f[1]).Some? ==> d == DecideRange(aton(f[1]).value, f[2])
  {
    var f := ScanWords(cmd, COMMAND_WIDTHS);
    if |f| != 3 then Decision(Some(InvalidFormat), None, None, None)
    else if Lower(f[0]) != "scan" then Decision(Some(UnknownCommand), None, None, None)
    else match aton(f[1])
      case None => Decision(Some(InvalidIp), None, None, None)
      case Some(ip) => DecideRange(ip, f[2])
  }

  /** The part of parse_command after the address is accepted. */
  function DecideRange(ip: int, ports: string): (d: Decision)
    ensures d.ip == Some(ip)
    ensures (d.first.Some? ==> d.first.value <= MAX_PORT) && (d.last.Some? ==> d.last.value <= MAX_PORT)
    ensures var p := ScanPortRange(ports);
      d.reply.None? <==> (p.second.Some? && ValidRange(p.first.value, p.second.value))
    ensures var p := ScanPortRange(ports);
      p.second.None? ==> d.reply == Some(InvalidRangeFormat)
    ensures d.reply.None? ==> (d.first.Some? && d.last.Some?
      && d.first.value == Typed(ScanPortRange(ports).first.value)
      && d.last.value == Typed(ScanPortRange(ports).second.value)
      && 1 <= d.first.value <= d.last.value <= MAX_PORT)
  {
    var p := ScanPortRange(ports);
    var first := if p.first.Some? then Some(StoredShort(p.first.value)) else None;
    var last := if p.second.Some? then Some(StoredShort(p.second.value)) else None;
    if p.second.None? then Decision(Some(InvalidRangeFormat), Some(ip), first, last)
    else if !ValidRange(p.first.value, p.second.value) then Decision(Some(InvalidRange), Some(ip), first, last)
    else Decision(None, Some(ip), first, last)
  }

  /** The three fields of a command written with single spaces are read back exactly. */
  lemma FieldsOfCommand(verb: string, ip: string, ports: string)
    requires IsWord(verb) && |verb| <= 15 && IsWord(ip) && |ip| <= 31 && IsWord(ports) && |ports| <= 31
    ensures ScanWords(verb + " " + ip + " " + ports, COMMAND_WIDTHS) == [verb, ip, ports]
  {
    JoinThree(verb, ip, ports);
    ScanJoinedWords([verb, ip, ports], COMMAND_WIDTHS);
  }

  /** The verb is matched in any case: "scan", "Scan" and "SCAN" all start a check of the address. */
  lemma VerbInAnyCase(verb: string, ip: string, ports: string, aton: string -> Option<int>)
    requires IsWord(verb) && |verb| <= 15 && IsWord(ip) && |ip| <= 31 && IsWord(ports) && |ports| <= 31
    ensures var d := Decide(verb + " " + ip + " " + ports, aton);
      (d.reply == Some(UnknownCommand)) <==> Lower(verb) != "scan"
  {
    FieldsOfCommand(verb, ip, ports);
  }

  /**
   * A well-formed SCAN with a known address is decided by its range alone:
   * the scan starts exactly when the typed range lies within 1..65535 and
   * is not reversed, and then with those ports.
   */
  lemma ScanStartsIffValid(ip: string, ports: string, aton: string -> Option<int>)
    requires IsWord(ip) && |ip| <= 31 && IsWord(ports) && |ports| <= 31 && aton(ip).Some?
    ensures Decide("SCAN " + ip + " " + ports, aton) == DecideRange(aton(ip).value, ports)
  {
    assert "SCAN " + ip + " " + ports == "SCAN" + " " + ip + " " + ports;
    FieldsOfCommand("SCAN", ip, ports);
    assert Lower("SCAN") == "scan";
  }

  // ----- recv_callback -----

  /**
   * The bytes recv_callback writes into its 256-byte buffer for a packet
   * of totLen bytes: the packet and a NUL after it.
   */
  function RecvBytesWritten(totLen: nat): (n: nat)
    ensures n > totLen
  {
    totLen + 1
  }

  /**
   * A packet of 256 bytes or more is written past the end of the buffer.
   * Only the number of bytes written is modelled, not the memory past the
   * buffer that they overwrite.
   */
  lemma RecvOverflowsBuffer(totLen: nat)
    requires totLen >= RECV_BUFFER_SIZE
    ensures RecvBytesWritten(totLen) > RECV_BUFFER_SIZE
  {
  }

  /** The command a packet carries when at most 255 bytes of it are copied. */
  function RecvCommand(packet: seq<char>): (cmd: string)
    ensures |cmd| < RECV_BUFFER_SIZE && '\0' !in cmd
    ensures |packet| < RECV_BUFFER_SIZE ==> cmd == CString(packet)
  {
    CString(Take(packet, RECV_BUFFER_SIZE - 1))
  }

  // ----- the port counter -----

  /** current_port++ on the uint16_t counter. */
  function NextPortAsWritten(port: nat): (p: nat)
    requires port <= MAX_PORT
    ensures p <= MAX_PORT
  {
    (port + 1) % USHORT_MOD
  }

  /**
   * With end_port 65535 the test `current_port > end_port` never holds: the
   * counter goes from 65535 back to 0 and a scan ending at 65535 goes on
   * probing forever.
   */
  lemma ScanNeverEndsAsWritten(port: nat)
    requires port <= MAX_PORT
    ensures !(NextPortAsWritten(port) > MAX_PORT)
    ensures NextPortAsWritten(MAX_PORT) == 0
  {
  }

  /** Strictly increasing. */
  predicate Ascending(ports: seq<int>) {
    forall i, j :: 0 <= i < j < |ports| ==> ports[i] < ports[j]
  }

  /**
   * PortScanner. The port counter is wider than 16 bits so that it can
   * pass end_port; the ports stored from a command are 16-bit values.
   */
  class Scanner {
    var targetIp: int
    var currentPort: int
    var startPort: int
    var endPort: int
    var openPorts: seq<int>
    var scanning: bool
    /** The messages sent to the client, oldest first. */
    var sent: seq<Message>

    /** The open ports are the ports found open so far, in the order probed, all below the counter. */
    ghost predicate Valid()
      reads this
    {
      0 <= startPort <= MAX_PORT && 0 <= endPort <= MAX_PORT && 0 <= currentPort
      && Ascending(openPorts) && (forall i :: 0 <= i < |openPorts| ==> openPorts[i] < currentPort)
    }

    /** A connect attempt for currentPort is in flight. */
    ghost predicate Waiting()
      reads this
    {
      scanning && currentPort <= endPort
    }

    /** Ports left to probe, counting the one in flight. */
    ghost function Remaining(): int
      reads this
    {
      endPort + 1 - currentPort
    }

    constructor ()
      ensures Valid() && !scanning && currentPort == 0 && startPort == 0 && endPort == 0
      ensures openPorts == [] && sent == []
    {
      targetIp, currentPort, startPort, endPort := 0, 0, 0, 0;
      openPorts, scanning, sent := [], false, [];
    }

    /**
     * finish_scan: only while scanning; stops and reports the size of the
     * range and the open ports.
     */
    method FinishScan()
      requires Valid()
      modifies this
      ensures Valid() && !scanning
      ensures sent == old(sent) + (if old(scanning) then [Complete(endPort - startPort + 1, openPorts)] else [])
      ensures currentPort == old(currentPort) && startPort == old(startPort) && endPort == old(endPort)
      ensures openPorts == old(openPorts) && targetIp == old(targetIp)
    {
      if !scanning {
        return;
      }
      scanning := false;
      sent := sent + [Complete(endPort - startPort + 1, openPorts)];
    }

    /**
     * scan_next_port: finish when not scanning or past the range;
     * otherwise `launch` says whether the connect attempt for the port
     * goes out, and a port whose attempt fails is skipped.
     */
    method ScanNextPort(launch: int -> bool)
      requires Valid()
      modifies this
      ensures Valid()
      ensures currentPort >= old(currentPort) && forall q :: old(currentPort) <= q < currentPort ==> !launch(q)
      ensures Waiting() ==> launch(currentPort) && sent == old(sent)
      ensures !Waiting() ==> !scanning
      ensures old(scanning) && !Waiting() ==>
        currentPort == (if old(currentPort) > endPort then old(currentPort) else endPort + 1)
        && sent == old(sent) + [Complete(endPort - startPort + 1, openPorts)]
      ensures !old(scanning) ==> currentPort == old(currentPort) && sent == old(sent)
      ensures scanning ==> old(scanning)
      ensures startPort == old(startPort) && endPort == old(endPort)
      ensures openPorts == old(openPorts) && targetIp == old(targetIp)
      decreases endPort + 1 - currentPort
    {
      if !scanning || currentPort > endPort {
        FinishScan();
        return;
      }
      if !launch(currentPort) {
        currentPort := currentPort + 1;
        ScanNextPort(launch);
      }
    }

    /** start_scan: begin at startPort with no open port found. */
    method StartScan(launch: int -> bool)
      requires Valid()
      modifies this
      ensures Valid()
      ensures old(sent) + [Scanning(startPort, endPort)] <= sent
      ensures currentPort >= startPort && forall q :: startPort <= q < currentPort ==> !launch(q)
      ensures Waiting() ==> launch(currentPort) && sent == old(sent) + [Scanning(startPort, endPort)]
      ensures !Waiting() ==> !scanning
      ensures startPort == old(startPort) && endPort == old(endPort) && openPorts == [] && targetIp == old(targetIp)
    {
      scanning := true;
      currentPort := startPort;
      openPorts := [];
      sent := sent + [Scanning(startPort, endPort)];
      ScanNextPort(launch);
    }

    /**
     * scan_connected_callback: an open port (ok) is reported and recorded,
     * then the next port is probed.
     */
    method Connected(ok: bool, launch: int -> bool)
      requires Valid()
      modifies this
      ensures Valid()
      ensures openPorts == old(openPorts) + (if ok then [old(currentPort)] else [])
      ensures currentPort > old(currentPort) && forall q :: old(currentPort) < q < currentPort ==> !launch(q)
      ensures old(sent) <= sent
      ensures |sent| > |old(sent)| <==> ok || (old(scanning) && !Waiting())
      ensures ok ==> sent[|old(sent)|] == PortOpen(old(currentPort))
      ensures Waiting() ==> launch(currentPort) && old(Waiting()) && Remaining() < old(Remaining())
      ensures !Waiting() ==> !scanning
      ensures startPort == old(startPort) && endPort == old(endPort) && targetIp == old(targetIp)
    {
      if ok {
        sent := sent + [PortOpen(currentPort)];
        openPorts := openPorts + [currentPort];
      }
      currentPort := currentPort + 1;
      ScanNextPort(launch);
    }

    /** scan_error_callback: the port is closed or unreachable; probe the next. */
    method Error(launch: int -> bool)
      requires Valid()
      modifies this
      ensures Valid() && openPorts == old(openPorts)
      ensures currentPort > old(currentPort) && forall q :: old(currentPort) < q < currentPort ==> !launch(q)
      ensures old(sent) <= sent
      ensures |sent| > |old(sent)| <==> old(scanning) && !Waiting()
      ensures Waiting() ==> launch(currentPort) && old(Waiting()) && Remaining() < old(Remaining())
      ensures !Waiting() ==> !scanning
      ensures startPort == old(startPort) && endPort == old(endPort) && targetIp == old(targetIp)
    {
      currentPort := currentPort + 1;
      ScanNextPort(launch);
    }

    /**
     * parse_command: store what the command sets, then either reply with
     * the reason it is refused or start the scan.
     */
    method ParseCommand(cmd: string, aton: string -> Option<int>, launch: int -> bool)
      requires Valid()
      modifies this
      ensures Valid()
      ensures var d := Decide(cmd, aton);
        targetIp == (if d.ip.Some? then d.ip.value else old(targetIp))
        && startPort == (if d.first.Some? then d.first.value else old(startPort))
        && endPort == (if d.last.Some? then d.last.value else old(endPort))
      ensures var d := Decide(cmd, aton);
        d.reply.Some? ==> (sent == old(sent) + [d.reply.value] && scanning == old(scanning)
          && currentPort == old(currentPort) && openPorts == old(openPorts))
      ensures var d := Decide(cmd, aton);
        d.reply.None? ==> (old(sent) + [Scanning(startPort, endPort)] <= sent
          && openPorts == [] && currentPort >= startPort
          && (forall q :: startPort <= q < currentPort ==> !launch(q))
          && (Waiting() ==> launch(currentPort)))
    {
      Apply(Decide(cmd, aton), launch);
    }

    /** What parse_command does once its decision is made: store the fields, then reply or scan. */
    method Apply(d: Decision, launch: int -> bool)
      requires Valid()
      requires (d.first.Some? ==> d.first.value <= MAX_PORT) && (d.last.Some? ==> d.last.value <= MAX_PORT)
      requires d.reply.None? ==> (d.ip.Some? && d.first.Some? && d.last.Some?)
      modifies this
      ensures Valid()
      ensures
        targetIp == (if d.ip.Some? then d.ip.value else old(targetIp))
        && startPort == (if d.first.Some? then d.first.value else old(startPort))
        && endPort == (if d.last.Some? then d.last.value else old(endPort))
      ensures
        d.reply.Some? ==> (sent == old(sent) + [d.reply.value] && scanning == old(scanning)
          && currentPort == old(currentPort) && openPorts == old(openPorts))
      ensures
        d.reply.None? ==> (old(sent) + [Scanning(startPort, endPort)] <= sent
          && openPorts == [] && currentPort >= startPort
          && (forall q :: startPort <= q < currentPort ==> !launch(q))
          && (Waiting() ==> launch(currentPort)))
    {
      if d.ip.Some? {
        targetIp := d.ip.value;
      }
      if d.first.Some? {
        startPort := d.first.value;
      }
      if d.last.Some? {
        endPort := d.last.value;
      }
      if d.reply.Some? {
        sent := sent + [d.reply.value];
      } else {
        StartScan(launch);
      }
    }

    /** recv_callback for a packet with data: at most 255 bytes of it are the command. */
    method Receive(packet: seq<char>, aton: string -> Option<int>, launch: int -> bool)
      requires Valid()
      modifies this
      ensures Valid()
      ensures packet == [] ==> unchanged(this)
      ensures var d := Decide(RecvCommand(packet), aton);
        packet != [] ==>
          targetIp == (if d.ip.Some? then d.ip.value else old(targetIp))
          && startPort == (if d.first.Some? then d.first.value else old(startPort))
          && endPort == (if d.last.Some? then d.last.value else old(endPort))
      ensures var d := Decide(RecvCommand(packet), aton);
        packet != [] && d.reply.Some? ==>
          sent == old(sent) + [d.reply.value] && scanning == old(scanning)
          && currentPort == old(currentPort) && openPorts == old(openPorts)
      ensures var d := Decide(RecvCommand(packet), aton);
        packet != [] && d.reply.None? ==>
          old(sent) + [Scanning(startPort, endPort)] <= sent
          && openPorts == [] && currentPort >= startPort
          && (forall q :: startPort <= q < currentPort ==> !launch(q))
          && (Waiting() ==> launch(currentPort))
    {
      if |packet| > 0 {
        ParseCommand(RecvCommand(packet), aton, launch);
      }
    }

    /** recv_callback when the client closes: the scan stops without a report. */
    method Disconnect()
      modifies this
      ensures !scanning && sent == old(sent) && openPorts == old(openPorts) && currentPort == old(currentPort)
      ensures startPort == old(startPort) && endPort == old(endPort) && targetIp == old(targetIp)
    {
      scanning := false;
    }
  }
}
