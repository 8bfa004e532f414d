/** Reading the loader's two kinds of line back: what a receiver that knows the format gets out of them. */
module Reader {
  import opened Common
  import opened DataPlane
  import opened Text
  import opened Framing

  datatype Parsed<+T> = Fail | Got(value: T, rest: string)

  /** The literal, and what follows. */
  function Expect(s: string, literal: string): Parsed<()> {
    if |literal| <= |s| && s[..|literal|] == literal then Got((), s[|literal|..]) else Fail
  }

  function ReadNat(s: string): Parsed<nat> {
    var digits := LeadingDigits(s);
    if digits == "" then Fail else Got(DigitsValue(digits), s[|digits|..])
  }

  function ReadInt(s: string): Parsed<int> {
    if s != "" && s[0] == '-' then
      match ReadNat(s[1..])
      case Fail => Fail
      case Got(n, rest) =>
        var t: int := 0 - n;
        Got(t, rest)
    else
      match ReadNat(s)
      case Fail => Fail
      case Got(n, rest) => Got(n, rest)
  }

  /** A number behind a literal. */
  function ReadNatAfter(s: string, literal: string): Parsed<nat> {
    match Expect(s, literal)
    case Fail => Fail
    case Got(_, rest) => ReadNat(rest)
  }

  function ReadByte(s: string, literal: string): Parsed<Byte> {
    match ReadNatAfter(s, literal)
    case Fail => Fail
    case Got(n, rest) => if n < 256 then Got(n, rest) else Fail
  }

  /** A dotted address behind a literal. */
  function ReadAddress(s: string, literal: string): Parsed<IPv4> {
    match ReadByte(s, literal)
    case Fail => Fail
    case Got(b0, r0) =>
      match ReadByte(r0, ".")
      case Fail => Fail
      case Got(b1, r1) =>
        match ReadByte(r1, ".")
        case Fail => Fail
        case Got(b2, r2) =>
          match ReadByte(r2, ".")
          case Fail => Fail
          case Got(b3, r3) => Got(IPv4(b0, b1, b2, b3), r3)
  }

  // ---- the two kinds of line ----

  datatype AlertSeen = AlertSeen(src: IPv4, dst: IPv4, kind: AlertKind, timestamp: nat)

  datatype FlowSeen = FlowSeen(ip: IPv4, pps: nat, bytesPerSec: nat, totalPkts: nat, totalBytes: nat, time: int)

  /** The kind, by code and name: 1 is a SYN flood, 2 a port scan. */
  function ReadKind(s: string): Parsed<AlertKind> {
    match ReadNatAfter(s, "\",\"alert_type\":")
    case Fail => Fail
    case Got(code, rest) =>
      match Expect(rest, ",\"alert_name\":\"")
      case Fail => Fail
      case Got(_, name) =>
        if code == 1 && Expect(name, "syn_flood").Got? then Got(SynFlood, Expect(name, "syn_flood").rest)
        else if code == 2 && Expect(name, "port_scan").Got? then Got(PortScan, Expect(name, "port_scan").rest)
        else Fail
  }

  function ReadAlert(line: string): Option<AlertSeen> {
    match ReadAddress(line, "{\"type\":\"alert\",\"src_ip\":\"")
    case Fail => None
    case Got(src, r0) =>
      match ReadAddress(r0, "\",\"dst_ip\":\"")
      case Fail => None
      case Got(dst, r1) =>
        match ReadKind(r1)
        case Fail => None
        case Got(kind, r2) =>
          match ReadNatAfter(r2, "\",\"timestamp_ns\":")
          case Fail => None
          case Got(timestamp, r3) => if r3 == "}" then Some(AlertSeen(src, dst, kind, timestamp)) else None
  }

  /** Two numbers, each behind its literal. */
  function ReadPair(s: string, first: string, second: string): Parsed<(nat, nat)> {
    match ReadNatAfter(s, first)
    case Fail => Fail
    case Got(a, rest) =>
      match ReadNatAfter(rest, second)
      case Fail => Fail
      case Got(b, end) => Got((a, b), end)
  }

  function ReadTime(s: string): Option<int> {
    match Expect(s, ",\"timestamp\":")
    case Fail => None
    case Got(_, rest) =>
      match ReadInt(rest)
      case Fail => None
      case Got(t, end) => if end == "}" then Some(t) else None
  }

  function ReadFlow(line: string): Option<FlowSeen> {
    match ReadAddress(line, "{\"type\":\"flow_rate\",\"ip\":\"")
    case Fail => None
    case Got(ip, r0) =>
      match ReadPair(r0, "\",\"pps\":", ",\"bytes_per_sec\":")
      case Fail => None
      case Got(rates, r1) =>
        match ReadPair(r1, ",\"total_pkts\":", ",\"total_bytes\":")
        case Fail => None
        case Got(totals, r2) =>
          match ReadTime(r2)
          case None => None
          case Some(t) => Some(FlowSeen(ip, rates.0, rates.1, totals.0, totals.1, t))
  }

  // ---- they are read back ----

  lemma Expected(literal: string, rest: string)
    ensures Expect(literal + rest, literal) == Got((), rest)
  {
    assert (literal + rest)[..|literal|] == literal;
    assert (literal + rest)[|literal|..] == rest;
  }

  /** No number goes on here. */
  predicate Stops(rest: string) {
    rest == "" || !IsDigit(rest[0])
  }

  lemma NatReadsBack(n: nat, rest: string)
    requires Stops(rest)
    ensures ReadNat(Decimal(n) + rest) == Got(n, rest)
  {
    DigitsEnd(Decimal(n), rest);
    DigitsValueOfDecimal(n);
    assert (Decimal(n) + rest)[|Decimal(n)|..] == rest;
    hide Decimal, LeadingDigits, DigitsValue;
  }

  lemma IntReadsBack(t: int, rest: string)
    requires Stops(rest)
    ensures ReadInt(SignedDecimal(t) + rest) == Got(t, rest)
  {
    hide ReadNat, Decimal;
    if t < 0 {
      NatReadsBack(-t, rest);
      assert (SignedDecimal(t) + rest)[1..] == Decimal(-t) + rest;
    } else {
      NatReadsBack(t, rest);
      assert (Decimal(t) + rest)[0] == Decimal(t)[0];
    }
  }

  lemma NatAfterReadsBack(literal: string, n: nat, rest: string)
    requires Stops(rest)
    ensures ReadNatAfter(literal + (Decimal(n) + rest), literal) == Got(n, rest)
  {
    hide Expect, ReadNat, Decimal;
    Expected(literal, Decimal(n) + rest);
    NatReadsBack(n, rest);
  }

  lemma ByteReadsBack(literal: string, b: Byte, rest: string)
    requires Stops(rest)
    ensures ReadByte(literal + (Decimal(b) + rest), literal) == Got(b, rest)
  {
    hide ReadNatAfter, Decimal;
    NatAfterReadsBack(literal, b, rest);
  }

  lemma AddressReadsBack(literal: string, ip: IPv4, rest: string)
    requires Stops(rest)
    ensures ReadAddress(literal + (Dotted(ip) + rest), literal) == Got(ip, rest)
  {
    hide ReadByte, Decimal;
    var r3 := "." + (Decimal(ip.b3) + rest);
    var r2 := "." + (Decimal(ip.b2) + r3);
    var r1 := "." + (Decimal(ip.b1) + r2);
    DottedBefore(ip, rest);
    ByteReadsBack(literal, ip.b0, r1);
    ByteReadsBack(".", ip.b1, r2);
    ByteReadsBack(".", ip.b2, r3);
    ByteReadsBack(".", ip.b3, rest);
  }

  lemma Regroup(a: string, b: string, c: string)
    ensures (a + b) + c == a + (b + c)
  {
  }

  lemma DottedBefore(ip: IPv4, rest: string)
    ensures Dotted(ip) + rest ==
      Decimal(ip.b0) + ("." + (Decimal(ip.b1) + ("." + (Decimal(ip.b2) + ("." + (Decimal(ip.b3) + rest))))))
  {
    hide Decimal;
    var d0, d1, d2, d3 := Decimal(ip.b0), Decimal(ip.b1), Decimal(ip.b2), Decimal(ip.b3);
    Regroup(".", d3, rest);
    Regroup(d2, "." + d3, rest);
    Regroup(".", d2 + ("." + d3), rest);
    Regroup(d1, "." + (d2 + ("." + d3)), rest);
    Regroup(".", d1 + ("." + (d2 + ("." + d3))), rest);
    Regroup(d0, "." + (d1 + ("." + (d2 + ("." + d3)))), rest);
  }

  lemma KindReadsBack(kind: AlertKind, code: nat, rest: string)
    requires code == if kind == SynFlood then 1 else 2
    ensures ReadKind("\",\"alert_type\":" + (Decimal(code) + (",\"alert_name\":\"" + (AlertName(code) + rest)))) ==
      Got(kind, rest)
  {
    hide ReadNatAfter, Expect, Decimal;
    var r1 := AlertName(code) + rest;
    var r0 := ",\"alert_name\":\"" + r1;
    assert r0[0] == ',';
    NatAfterReadsBack("\",\"alert_type\":", code, r0);
    Expected(",\"alert_name\":\"", r1);
    Expected(AlertName(code), rest);
  }

  /** A line about an alert is read back. */
  lemma AlertReadsBack(src: IPv4, dst: IPv4, kind: AlertKind, code: nat, timestamp: nat)
    requires code == if kind == SynFlood then 1 else 2
    ensures ReadAlert(AlertBody(src, dst, code, timestamp)) == Some(AlertSeen(src, dst, kind, timestamp))
  {
    hide ReadAddress, ReadKind, ReadNatAfter, Decimal, Dotted, AlertName;
    var r2 := "\",\"timestamp_ns\":" + (Decimal(timestamp) + "}");
    var r1 := "\",\"alert_type\":" + (Decimal(code) + (",\"alert_name\":\"" + (AlertName(code) + r2)));
    var r0 := "\",\"dst_ip\":\"" + (Dotted(dst) + r1);
    assert r0[0] == '\"' && r1[0] == '\"';
    AddressReadsBack("{\"type\":\"alert\",\"src_ip\":\"", src, r0);
    AddressReadsBack("\",\"dst_ip\":\"", dst, r1);
    KindReadsBack(kind, code, r2);
    NatAfterReadsBack("\",\"timestamp_ns\":", timestamp, "}");
  }

  lemma PairReadsBack(first: string, a: nat, second: string, b: nat, rest: string)
    requires Stops(rest) && second != "" && !IsDigit(second[0])
    ensures ReadPair(first + (Decimal(a) + (second + (Decimal(b) + rest))), first, second) == Got((a, b), rest)
  {
    hide ReadNatAfter, Decimal;
    var r := second + (Decimal(b) + rest);
    assert r[0] == second[0];
    NatAfterReadsBack(first, a, r);
    NatAfterReadsBack(second, b, rest);
  }

  lemma TimeReadsBack(t: int)
    ensures ReadTime(",\"timestamp\":" + (SignedDecimal(t) + "}")) == Some(t)
  {
    hide Expect, ReadInt, SignedDecimal;
    Expected(",\"timestamp\":", SignedDecimal(t) + "}");
    IntReadsBack(t, "}");
  }

  /** A line about a flow is read back. */
  lemma FlowReadsBack(ip: IPv4, pps: nat, bytesPerSec: nat, totalPkts: nat, totalBytes: nat, time: int)
    ensures ReadFlow(FlowBody(ip, pps, bytesPerSec, totalPkts, totalBytes, time)) ==
      Some(FlowSeen(ip, pps, bytesPerSec, totalPkts, totalBytes, time))
  {
    hide ReadAddress, ReadPair, ReadTime, Decimal, SignedDecimal, Dotted;
    var r2 := ",\"timestamp\":" + (SignedDecimal(time) + "}");
    var r1 := ",\"total_pkts\":" + (Decimal(totalPkts) + (",\"total_bytes\":" + (Decimal(totalBytes) + r2)));
    var r0 := "\",\"pps\":" + (Decimal(pps) + (",\"bytes_per_sec\":" + (Decimal(bytesPerSec) + r1)));
    assert r0[0] == '\"' && r1[0] == ',' && r2[0] == ',';
    AddressReadsBack("{\"type\":\"flow_rate\",\"ip\":\"", ip, r0);
    PairReadsBack("\",\"pps\":", pps, ",\"bytes_per_sec\":", bytesPerSec, r1);
    PairReadsBack(",\"total_pkts\":", totalPkts, ",\"total_bytes\":", totalBytes, r2);
    TimeReadsBack(time);
  }

  /** A line of one kind is not read as the other: their tenth characters differ. */
  lemma KindsDiffer(line: string)
    ensures ReadAlert(line).Some? ==> |line| > 9 && line[9] == 'a'
    ensures ReadFlow(line).Some? ==> |line| > 9 && line[9] == 'f'
  {
    hide ReadKind, ReadPair, ReadTime, ReadNat;
    var a, f := "{\"type\":\"alert\",\"src_ip\":\"", "{\"type\":\"flow_rate\",\"ip\":\"";
    if Expect(line, a).Got? {
      assert line[9] == line[..|a|][9] == a[9];
    }
    if Expect(line, f).Got? {
      assert line[9] == line[..|f|][9] == f[9];
    }
  }
}
