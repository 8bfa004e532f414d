/** Newline-framed messages from the loader's broadcast to the backend's line loop. */
module Framing {
  import opened Common
  import opened Text

  // ---- text ----

  const NEWLINE := '\n'

  predicate NoNewline(s: string) {
    NEWLINE !in s
  }

  /** inet_ntop for AF_INET */
  function Dotted(ip: IPv4): string {
    Decimal(ip.b0) + ("." + (Decimal(ip.b1) + ("." + (Decimal(ip.b2) + ("." + Decimal(ip.b3))))))
  }

  // ---- the two messages ----

  const BUFFER_SIZE: nat := 512

  function AlertName(kind: nat): string {
    if kind == 1 then "syn_flood" else if kind == 2 then "port_scan" else "unknown"
  }

  function AlertBody(src: IPv4, dst: IPv4, kind: nat, timestamp: nat): string {
    "{\"type\":\"alert\",\"src_ip\":\"" + (Dotted(src) + ("\",\"dst_ip\":\"" + (Dotted(dst) +
    ("\",\"alert_type\":" + (Decimal(kind) + (",\"alert_name\":\"" + (AlertName(kind) +
    ("\",\"timestamp_ns\":" + (Decimal(timestamp) + "}")))))))))
  }

  function AlertText(src: IPv4, dst: IPv4, kind: nat, timestamp: nat): string {
    AlertBody(src, dst, kind, timestamp) + "\n"
  }

  function FlowBody(ip: IPv4, pps: nat, bytesPerSec: nat, totalPkts: nat, totalBytes: nat, timestamp: int): string {
    "{\"type\":\"flow_rate\",\"ip\":\"" + (Dotted(ip) + ("\",\"pps\":" + (Decimal(pps) +
    (",\"bytes_per_sec\":" + (Decimal(bytesPerSec) + (",\"total_pkts\":" + (Decimal(totalPkts) +
    (",\"total_bytes\":" + (Decimal(totalBytes) + (",\"timestamp\":" + (SignedDecimal(timestamp) + "}")))))))))))
  }

  function FlowText(ip: IPv4, pps: nat, bytesPerSec: nat, totalPkts: nat, totalBytes: nat, timestamp: int): string {
    FlowBody(ip, pps, bytesPerSec, totalPkts, totalBytes, timestamp) + "\n"
  }

  /** One message on the wire: a body that starts with '{', ends with '}', has no newline, and is closed by one. */
  ghost predicate IsMessage(m: string) {
    && |m| >= 3 && m[0] == '{' && m[|m| - 2] == '}' && m[|m| - 1] == NEWLINE
    && NoNewline(m[..|m| - 1])
  }

  /** A piece of a body, at most n characters long. */
  ghost predicate Piece(s: string, n: nat) {
    |s| <= n && NoNewline(s)
  }

  /** The end of a body, at most n characters long. */
  ghost predicate Closing(s: string, n: nat) {
    Piece(s, n) && s != "" && s[|s| - 1] == '}'
  }

  lemma DottedShape(ip: IPv4)
    ensures Piece(Dotted(ip), 15)
  {
    Pow10Of20();
    DecimalWidth(ip.b0, 3);
    DecimalWidth(ip.b1, 3);
    DecimalWidth(ip.b2, 3);
    DecimalWidth(ip.b3, 3);
  }

  lemma U64Shape(n: nat)
    requires n < U64
    ensures Piece(Decimal(n), 20)
  {
    Pow10Of20();
    DecimalWidth(n, 20);
  }

  lemma TimeShape(t: int)
    requires -0x8000_0000_0000_0000 <= t < 0x8000_0000_0000_0000
    ensures Piece(SignedDecimal(t), 21)
  {
    U64Shape(if t < 0 then -t else t);
  }

  /** A literal and a value in front of the end of a body. */
  lemma Prepend(literal: string, value: string, m: nat, rest: string, n: nat)
    requires Piece(literal, 40) && Piece(value, m) && Closing(rest, n)
    ensures Closing(literal + (value + rest), 40 + m + n)
  {
  }

  /** A body closed by a newline makes a message, which snprintf leaves whole. */
  lemma CloseMessage(body: string)
    requires Closing(body, BUFFER_SIZE - 3) && |body| > 1 && body[0] == '{'
    ensures var m := body + "\n";
      |m| < BUFFER_SIZE && Snprintf(BUFFER_SIZE, m) == m && IsMessage(m)
  {
    var m := body + "\n";
    assert m[..|m| - 1] == body;
  }

  /** Every alert message fits its buffer uncut and is one framed line. */
  lemma AlertFits(src: IPv4, dst: IPv4, kind: nat, timestamp: nat)
    requires kind < 256 && timestamp < U64
    ensures var m := AlertText(src, dst, kind, timestamp);
      |m| < BUFFER_SIZE && Snprintf(BUFFER_SIZE, m) == m && IsMessage(m)
  {
    hide Decimal, Dotted, IsMessage, Snprintf, Closing, AlertName;
    DottedShape(src);
    DottedShape(dst);
    U64Shape(kind);
    U64Shape(timestamp);
    NameShape(kind);
    BraceCloses();
    var e := "\",\"timestamp_ns\":" + (Decimal(timestamp) + "}");
    Prepend("\",\"timestamp_ns\":", Decimal(timestamp), 20, "}", 1);
    var d := ",\"alert_name\":\"" + (AlertName(kind) + e);
    Prepend(",\"alert_name\":\"", AlertName(kind), 20, e, 61);
    var c := "\",\"alert_type\":" + (Decimal(kind) + d);
    Prepend("\",\"alert_type\":", Decimal(kind), 20, d, 121);
    var b := "\",\"dst_ip\":\"" + (Dotted(dst) + c);
    Prepend("\",\"dst_ip\":\"", Dotted(dst), 15, c, 181);
    var a := "{\"type\":\"alert\",\"src_ip\":\"" + (Dotted(src) + b);
    Prepend("{\"type\":\"alert\",\"src_ip\":\"", Dotted(src), 15, b, 236);
    Widen(a, 291, BUFFER_SIZE - 3);
    assert |a| > 1 && a[0] == '{';
    CloseMessage(a);
  }

  lemma NameShape(kind: nat)
    ensures Piece(AlertName(kind), 20)
  {
  }

  lemma BraceCloses()
    ensures Closing("}", 1)
  {
  }

  lemma Widen(s: string, n: nat, m: nat)
    requires Closing(s, n) && n <= m
    ensures Closing(s, m)
  {
  }

  /** Every flow-rate message fits its buffer uncut and is one framed line. */
  lemma FlowFits(ip: IPv4, pps: nat, bytesPerSec: nat, totalPkts: nat, totalBytes: nat, timestamp: int)
    requires pps < U64 && bytesPerSec < U64 && totalPkts < U64 && totalBytes < U64
    requires -0x8000_0000_0000_0000 <= timestamp < 0x8000_0000_0000_0000
    ensures var m := FlowText(ip, pps, bytesPerSec, totalPkts, totalBytes, timestamp);
      |m| < BUFFER_SIZE && Snprintf(BUFFER_SIZE, m) == m && IsMessage(m)
  {
    hide Decimal, SignedDecimal, Dotted, IsMessage, Snprintf, Closing;
    DottedShape(ip);
    U64Shape(pps);
    U64Shape(bytesPerSec);
    U64Shape(totalPkts);
    U64Shape(totalBytes);
    TimeShape(timestamp);
    BraceCloses();
    var f := ",\"timestamp\":" + (SignedDecimal(timestamp) + "}");
    Prepend(",\"timestamp\":", SignedDecimal(timestamp), 21, "}", 1);
    var e := ",\"total_bytes\":" + (Decimal(totalBytes) + f);
    Prepend(",\"total_bytes\":", Decimal(totalBytes), 20, f, 62);
    var d := ",\"total_pkts\":" + (Decimal(totalPkts) + e);
    Prepend(",\"total_pkts\":", Decimal(totalPkts), 20, e, 122);
    var c := ",\"bytes_per_sec\":" + (Decimal(bytesPerSec) + d);
    Prepend(",\"bytes_per_sec\":", Decimal(bytesPerSec), 20, d, 182);
    var b := "\",\"pps\":" + (Decimal(pps) + c);
    Prepend("\",\"pps\":", Decimal(pps), 20, c, 242);
    var a := "{\"type\":\"flow_rate\",\"ip\":\"" + (Dotted(ip) + b);
    Prepend("{\"type\":\"flow_rate\",\"ip\":\"", Dotted(ip), 15, b, 302);
    Widen(a, 357, BUFFER_SIZE - 3);
    assert |a| > 1 && a[0] == '{';
    CloseMessage(a);
  }

  // ---- splitting a stream into lines ----

  /** The index of the first newline; |s| when there is none. */
  function Find(s: string): (i: nat)
    ensures i <= |s| && NoNewline(s[..i]) && (i < |s| ==> s[i] == NEWLINE)
  {
    if s == "" || s[0] == NEWLINE then 0 else 1 + Find(s[1..])
  }

  /** The complete lines of a stream. */
  function Lines(s: string): seq<string>
    decreases |s|
  {
    if Find(s) == |s| then [] else [s[..Find(s)]] + Lines(s[Find(s) + 1..])
  }

  /** What follows the last newline. */
  function Tail(s: string): string
    decreases |s|
  {
    if Find(s) == |s| then s else Tail(s[Find(s) + 1..])
  }

  lemma {:induction false} FindIs(s: string, i: nat)
    requires i <= |s| && NoNewline(s[..i]) && (i < |s| ==> s[i] == NEWLINE)
    ensures Find(s) == i
  {
  }

  lemma FindInFront(s: string, t: string)
    requires Find(s) < |s|
    ensures Find(s + t) == Find(s) && (s + t)[..Find(s)] == s[..Find(s)]
    ensures (s + t)[Find(s) + 1..] == s[Find(s) + 1..] + t
  {
    assert (s + t)[..Find(s)] == s[..Find(s)];
    FindIs(s + t, Find(s));
  }

  lemma LinesOnce(s: string)
    ensures Lines(s) == if Find(s) < |s| then [s[..Find(s)]] + Lines(s[Find(s) + 1..]) else []
  {
    hide Find;
  }

  lemma TailOnce(s: string)
    ensures Tail(s) == if Find(s) < |s| then Tail(s[Find(s) + 1..]) else s
  {
    hide Find;
  }

  lemma SplitOnce(s: string)
    ensures Find(s) < |s| ==> Lines(s) == [s[..Find(s)]] + Lines(s[Find(s) + 1..])
    ensures Find(s) < |s| ==> Tail(s) == Tail(s[Find(s) + 1..])
    ensures Find(s) == |s| ==> Lines(s) == [] && Tail(s) == s
  {
    hide Find, Lines, Tail;
    LinesOnce(s);
    TailOnce(s);
  }

  /** Appending to a stream only ever works on its unfinished tail. */
  lemma {:induction false} LinesAppend(s: string, t: string)
    ensures Lines(s + t) == Lines(s) + Lines(Tail(s) + t)
    ensures Tail(s + t) == Tail(Tail(s) + t)
    decreases |s|
  {
    hide Lines, Tail, Find;
    SplitOnce(s);
    if Find(s) < |s| {
      FindInFront(s, t);
      SplitOnce(s + t);
      var first, rest := s[..Find(s)], s[Find(s) + 1..];
      LinesAppend(rest, t);
      assert [first] + (Lines(rest) + Lines(Tail(rest) + t)) == ([first] + Lines(rest)) + Lines(Tail(rest) + t);
    } else {
      assert [] + Lines(s + t) == Lines(s + t);
    }
  }

  lemma {:induction false} TailUnfinished(s: string)
    ensures NoNewline(Tail(s))
    decreases |s|
  {
    if Find(s) < |s| {
      TailUnfinished(s[Find(s) + 1..]);
    } else {
      assert s[..|s|] == s;
    }
  }

  /** str.strip on ASCII text */
  predicate IsSpace(c: char) {
    '\t' <= c <= '\r' || c == ' ' || 28 as char <= c <= 31 as char
  }

  function LStrip(s: string): string {
    if s != "" && IsSpace(s[0]) then LStrip(s[1..]) else s
  }

  function RStrip(s: string): string {
    if s != "" && IsSpace(s[|s| - 1]) then RStrip(s[..|s| - 1]) else s
  }

  function Strip(s: string): string {
    RStrip(LStrip(s))
  }

  /** The lines that reach the JSON parser: stripped, blank ones skipped. */
  function Handled(lines: seq<string>): seq<string> {
    if lines == [] then []
    else if Strip(lines[0]) == "" then Handled(lines[1..])
    else [Strip(lines[0])] + Handled(lines[1..])
  }

  lemma {:induction false} HandledAppend(a: seq<string>, b: seq<string>)
    ensures Handled(a + b) == Handled(a) + Handled(b)
  {
    hide Strip;
    if a == [] {
      assert a + b == b;
    } else {
      HandledAppend(a[1..], b);
      HandledCons(a, b);
    }
  }

  lemma HandledOnce(lines: seq<string>)
    requires lines != []
    ensures Handled(lines) ==
      if Strip(lines[0]) == "" then Handled(lines[1..]) else [Strip(lines[0])] + Handled(lines[1..])
  {
    hide Strip;
  }

  lemma HandledCons(a: seq<string>, b: seq<string>)
    requires a != [] && Handled(a[1..] + b) == Handled(a[1..]) + Handled(b)
    ensures Handled(a + b) == Handled(a) + Handled(b)
  {
    hide Strip, Handled;
    assert (a + b)[0] == a[0] && (a + b)[1..] == a[1..] + b;
    HandledOnce(a);
    HandledOnce(a + b);
    Associates([Strip(a[0])], Handled(a[1..]), Handled(b));
  }

  lemma Associates(x: seq<string>, y: seq<string>, z: seq<string>)
    ensures x + (y + z) == (x + y) + z
  {
  }

  // ---- what a stream of lines is handled as ----

  /** The white space of ASCII: the blank, tab to carriage return, and the four separators. */
  predicate WhiteChar(c: char) {
    c as int in {32, 9, 10, 11, 12, 13, 28, 29, 30, 31}
  }

  predicate White(s: string) {
    forall i :: 0 <= i < |s| ==> WhiteChar(s[i])
  }

  lemma SpaceIsWhite(c: char)
    ensures IsSpace(c) <==> WhiteChar(c)
  {
  }

  lemma {:induction false} LStripStops(p: string, s: string)
    requires White(p) && (s == "" || !WhiteChar(s[0]))
    ensures LStrip(p + s) == s
  {
    hide IsSpace, WhiteChar;
    if p == "" {
      assert p + s == s;
      if s != "" {
        SpaceIsWhite(s[0]);
      }
    } else {
      SpaceIsWhite(p[0]);
      LStripStops(p[1..], s);
      assert (p + s)[1..] == p[1..] + s;
    }
  }

  lemma {:induction false} RStripStops(s: string, q: string)
    requires White(q) && (s == "" || !WhiteChar(s[|s| - 1]))
    ensures RStrip(s + q) == s
  {
    hide IsSpace, WhiteChar;
    if q == "" {
      assert s + q == s;
      if s != "" {
        SpaceIsWhite(s[|s| - 1]);
      }
    } else {
      SpaceIsWhite(q[|q| - 1]);
      RStripStops(s, q[..|q| - 1]);
      assert (s + q)[..|s + q| - 1] == s + q[..|q| - 1];
    }
  }

  /** White space around a text is stripped, and nothing else. */
  lemma StripsWhite(p: string, s: string, q: string)
    requires White(p) && White(q) && (s == "" || (!WhiteChar(s[0]) && !WhiteChar(s[|s| - 1])))
    ensures Strip(p + s + q) == s
  {
    hide LStrip, RStrip, WhiteChar;
    if s == "" {
      LStripStops(p + q, "");
      RStripStops("", "");
      assert p + s + q == p + q + "" && "" + "" == "";
    } else {
      LStripStops(p, s + q);
      RStripStops(s, q);
      assert p + s + q == p + (s + q);
    }
  }

  /** Lines, each closed by a newline. */
  function Joined(lines: seq<string>): string {
    if lines == [] then "" else lines[0] + "\n" + Joined(lines[1..])
  }

  /** Lines joined by newlines come apart again, and what follows them stays. */
  lemma {:induction false} JoinedSplits(lines: seq<string>, tail: string)
    requires '\n' !in tail && forall i :: 0 <= i < |lines| ==> '\n' !in lines[i]
    ensures Lines(Joined(lines) + tail) == lines && Tail(Joined(lines) + tail) == tail
  {
    hide Lines, Tail, Find;
    var s := Joined(lines) + tail;
    SplitOnce(s);
    if lines == [] {
      assert s == tail;
      FindIs(s, |s|);
    } else {
      var first, rest := lines[0], Joined(lines[1..]) + tail;
      assert s == first + "\n" + rest;
      assert s[..|first|] == first && s[|first|] == '\n' && s[|first| + 1..] == rest;
      FindIs(s, |first|);
      JoinedSplits(lines[1..], tail);
      assert lines == [first] + lines[1..];
    }
  }

  /** A line is handled without the white space around it; one of white space only is skipped. */
  lemma LineHandled(p: string, s: string, q: string)
    requires White(p) && White(q) && (s == "" || (!WhiteChar(s[0]) && !WhiteChar(s[|s| - 1])))
    ensures Handled([p + s + q]) == if s == "" then [] else [s]
  {
    hide Strip;
    StripsWhite(p, s, q);
  }

  // ---- the backend ----

  /** One connection of `xdp_socket_client_loop`. `stream` is everything received on it so far. */
  class Receiver {
    var buffer: string
    var handled: seq<string>
    ghost var stream: string

    /** Whatever the chunk boundaries were, the state is a function of the stream. */
    ghost predicate Valid()
      reads this
    {
      buffer == Tail(stream) && handled == Handled(Lines(stream))
    }

    constructor ()
      ensures Valid() && stream == ""
    {
      buffer, handled, stream := "", [], "";
    }

    /** The inner loop: takes complete lines off the buffer until none is left. */
    method Drain()
      modifies `buffer, `handled
      ensures buffer == Tail(old(buffer)) && handled == old(handled) + Handled(Lines(old(buffer)))
    {
      hide Lines, Tail, Handled, Strip, Find;
      var at := IndexOfNewline(buffer);
      ghost var left := Handled(Lines(buffer));
      while at < |buffer|
        invariant at == Find(buffer) && Tail(buffer) == Tail(old(buffer)) && left == Handled(Lines(buffer))
        invariant handled + left == old(handled) + Handled(Lines(old(buffer)))
        decreases |buffer|
      {
        var line := buffer[..at];
        DrainStep(buffer);
        buffer := buffer[at + 1..];
        left := Handled(Lines(buffer));
        line := Strip(line);
        if line != "" {
          assert handled + ([line] + left) == (handled + [line]) + left;
          handled := handled + [line];
        }
        at := IndexOfNewline(buffer);
      }
      DrainEnd(buffer);
      assert handled + [] == handled;
    }

    method Receive(chunk: string)
      requires Valid()
      modifies this
      ensures Valid() && stream == old(stream) + chunk && NoNewline(buffer)
    {
      hide Tail, Lines, Handled;
      LinesAppend(stream, chunk);
      HandledAppend(Lines(stream), Lines(buffer + chunk));
      TailUnfinished(stream + chunk);
      buffer, stream := buffer + chunk, stream + chunk;
      Drain();
    }
  }

  lemma DrainEnd(buffer: string)
    requires Find(buffer) == |buffer|
    ensures Tail(buffer) == buffer && Handled(Lines(buffer)) == []
  {
  }

  lemma DrainStep(buffer: string)
    requires Find(buffer) < |buffer|
    ensures var line, rest := Strip(buffer[..Find(buffer)]), buffer[Find(buffer) + 1..];
      && Tail(buffer) == Tail(rest)
      && Handled(Lines(buffer)) == (if line == "" then [] else [line]) + Handled(Lines(rest))
  {
    var lines := Lines(buffer);
    assert lines[0] == buffer[..Find(buffer)] && lines[1..] == Lines(buffer[Find(buffer) + 1..]);
    hide Strip;
  }

  method IndexOfNewline(s: string) returns (i: nat)
    ensures i == Find(s)
  {
    i := 0;
    while i < |s| && s[i] != NEWLINE
      invariant i <= |s| && NoNewline(s[..i])
    {
      i := i + 1;
    }
    FindIs(s, i);
  }
}
