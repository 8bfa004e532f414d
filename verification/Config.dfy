/** The loader's configuration file: parsing in a line buffer, printing, and what a file means. */
module Config {
  import opened Common
  import opened Text
  import opened CString

  datatype XdpMode = AutoMode | SkbMode | DrvMode | HwMode

  /** XDP_FLAGS_UPDATE_IF_NOEXIST, and at most one of the three mode bits. */
  datatype XdpFlags = XdpFlags(ifNoExist: bool, mode: XdpMode)

  datatype Settings = Settings(
    ifname: string,
    socketPath: string,
    logFile: string,
    interval: int,
    daemon: bool,
    flags: XdpFlags)

  const IF_NAMESIZE: nat := 16
  const SUN_PATH_SIZE: nat := 108
  const LOG_FILE_SIZE: nat := 256
  const LINE_SIZE: nat := 512
  const MAX_INTERVAL := 3600

  function Defaults(): Settings {
    Settings("lo", "/tmp/xdp_loader.sock", "/tmp/xdp_loader.log", 5, false, XdpFlags(true, SkbMode))
  }

  // ---- values ----

  function ParseXdpMode(value: string): Option<XdpFlags> {
    if value == "skb" || value == "generic" then Some(XdpFlags(true, SkbMode))
    else if value == "drv" || value == "native" then Some(XdpFlags(true, DrvMode))
    else if value == "hw" then Some(XdpFlags(true, HwMode))
    else if value == "auto" then Some(XdpFlags(true, AutoMode))
    else None
  }

  function SkipSpace(s: string): string {
    if s != "" && (s[0] == ' ' || '\t' <= s[0] <= '\r') then SkipSpace(s[1..]) else s
  }

  const LONG_MAX: int := 0x7FFF_FFFF_FFFF_FFFF

  /** A 64-bit value kept in its low 32 bits, read as signed. */
  function ToInt32(n: int): int {
    var low := n % 0x1_0000_0000;
    if low >= 0x8000_0000 then low - 0x1_0000_0000 else low
  }

  /** atoi as glibc has it: strtol, which saturates, then a conversion to int, which truncates. */
  function Atoi(s: string): int {
    var t := SkipSpace(s);
    var negative := t != "" && t[0] == '-';
    var signed := t != "" && (t[0] == '-' || t[0] == '+');
    var n: int := DigitsValue(LeadingDigits(if signed then t[1..] else t));
    ToInt32(if negative then (if n > LONG_MAX then -LONG_MAX - 1 else -n)
            else if n > LONG_MAX then LONG_MAX else n)
  }

  // ---- one setting ----

  datatype Field = Ifname | SocketPath | LogFile | Interval | Daemon | Mode

  function Name(f: Field): string {
    match f
    case Ifname => "ifname"
    case SocketPath => "socket_path"
    case LogFile => "log_file"
    case Interval => "stats_interval_sec"
    case Daemon => "daemon"
    case Mode => "xdp_mode"
  }

  function FieldOf(key: string): Option<Field> {
    if key == "ifname" then Some(Ifname)
    else if key == "socket_path" then Some(SocketPath)
    else if key == "log_file" then Some(LogFile)
    else if key == "stats_interval_sec" then Some(Interval)
    else if key == "daemon" then Some(Daemon)
    else if key == "xdp_mode" then Some(Mode)
    else None
  }

  function SetField(f: Field, value: string, c: Settings): Option<Settings> {
    match f
    case Ifname => Some(c.(ifname := Snprintf(IF_NAMESIZE, value)))
    case SocketPath => Some(c.(socketPath := Snprintf(SUN_PATH_SIZE, value)))
    case LogFile => Some(c.(logFile := Snprintf(LOG_FILE_SIZE, value)))
    case Interval =>
      var n := Atoi(value);
      if n <= 0 || n > MAX_INTERVAL then None else Some(c.(interval := n))
    case Daemon => Some(c.(daemon := Atoi(value) != 0))
    case Mode =>
      var flags := ParseXdpMode(value);
      if flags.None? then None else Some(c.(flags := flags.value))
  }

  function Assign(key: string, value: string, c: Settings): Option<Settings> {
    var f := FieldOf(key);
    if f.None? then None else SetField(f.value, value, c)
  }

  // ---- lines and files ----

  /** One line, without its terminating NUL. None is a syntax or value error. */
  function ParseLine(line: string, c: Settings): Option<Settings> {
    var text := Trimmed(Before(line, '#'));
    if text == "" then Some(c)
    else if '=' !in text then None
    else
      var key := Before(text, '=');
      Assign(Trimmed(key), Trimmed(text[|key| + 1..]), c)
  }

  /** How much of the text one fgets takes: through the first newline, at most LINE_SIZE - 1 characters. */
  function FgetsLength(text: string): (n: nat)
    requires text != ""
    ensures 0 < n <= |text| && n < LINE_SIZE
  {
    var line := |Before(text, '\n')| + 1;
    var fit := if line < LINE_SIZE - 1 then line else LINE_SIZE - 1;
    if fit < |text| then fit else |text|
  }

  /** The settings after the lines up to the first faulty one, and whether there was none. */
  function ParseText(text: string, c: Settings): (Settings, bool)
    decreases |text|
  {
    if text == "" then (c, true)
    else
      var n := FgetsLength(text);
      match ParseLine(Before(text[..n], NUL), c)
      case None => (c, false)
      case Some(next) => ParseText(text[n..], next)
  }

  /** What fopen finds. */
  datatype FileState = Missing | Unreadable | Contents(text: string)

  function LoadFile(file: FileState, c: Settings): (Settings, bool) {
    match file
    case Missing => (c, true)
    case Unreadable => (c, false)
    case Contents(text) => ParseText(text, c)
  }

  // ---- the parser itself ----

  class AppConfig {
    var ifname: string
    var socketPath: string
    var logFile: string
    var interval: int
    var daemon: bool
    var flags: XdpFlags

    function View(): Settings
      reads this
    {
      Settings(ifname, socketPath, logFile, interval, daemon, flags)
    }

    constructor (c: Settings)
      ensures View() == c
    {
      ifname, socketPath, logFile := c.ifname, c.socketPath, c.logFile;
      interval, daemon, flags := c.interval, c.daemon, c.flags;
    }

    /** The chain of strcmp on the key. */
    method Set(key: string, value: string) returns (ok: bool)
      modifies this
      ensures ok == Assign(key, value, old(View())).Some?
      ensures View() == if ok then Assign(key, value, old(View())).value else old(View())
    {
      if key == "ifname" {
        ifname := Snprintf(IF_NAMESIZE, value);
      } else if key == "socket_path" {
        socketPath := Snprintf(SUN_PATH_SIZE, value);
      } else if key == "log_file" {
        logFile := Snprintf(LOG_FILE_SIZE, value);
      } else if key == "stats_interval_sec" {
        var n := Atoi(value);
        if n <= 0 || n > MAX_INTERVAL {
          return false;
        }
        interval := n;
      } else if key == "daemon" {
        daemon := Atoi(value) != 0;
      } else if key == "xdp_mode" {
        var parsed := ParseXdpMode(value);
        if parsed.None? {
          return false;
        }
        flags := parsed.value;
      } else {
        return false;
      }
      return true;
    }
  }

  /** Cuts the comment off and trims: the string at the result is the line's text. */
  method TakeText(line: array<char>) returns (key: nat)
    requires Terminated(line[..], 0)
    modifies line
    ensures key < line.Length && Terminated(line[..], key)
    ensures CStr(line[..], key) == Trimmed(Before(old(CStr(line[..], 0)), '#'))
  {
    ghost var s := CStr(line[..], 0);
    var comment := Strchr(line, 0, '#');
    if comment.Some? {
      Cut(line[..], 0, comment.value);
      BeforeIs(s, s[..comment.value], '#');
      ghost var after := line[..][comment.value := NUL];
      line[comment.value] := NUL;
      assert line[..] == after;
    }
    key := Trim(line, 0);
  }

  /** Cuts the text at its '=' and trims both sides in place. */
  method SplitSetting(line: array<char>, start: nat, eq: nat) returns (key: nat, value: nat)
    requires Terminated(line[..], start) && start <= eq < NulAt(line[..], start) && line[eq] == '='
    requires '=' !in CStr(line[..], start)[..eq - start]
    modifies line
    ensures key < line.Length && value < line.Length
    ensures var text := old(CStr(line[..], start));
      && CStr(line[..], key) == Trimmed(Before(text, '='))
      && CStr(line[..], value) == Trimmed(text[|Before(text, '=')| + 1..])
  {
    hide Trimmed, Before, NulAt;
    ghost var cut := line[..][eq := NUL];
    CutAtEquals(line[..], start, eq);
    line[eq] := NUL;
    assert line[..] == cut;
    value := Trim(line, eq + 1);
    ghost var valued := line[..];
    KeyStays(cut, valued, start, eq);
    key := Trim(line, start);
    SameSuffix(valued, line[..], value, eq);
  }

  lemma CutAtEquals(a: seq<char>, start: nat, eq: nat)
    requires Terminated(a, start) && start <= eq < NulAt(a, start) && a[eq] == '='
    requires '=' !in CStr(a, start)[..eq - start]
    ensures var text, cut := CStr(a, start), a[eq := NUL];
      && NulAt(cut, start) == eq && CStr(cut, start) == Before(text, '=')
      && Terminated(cut, eq + 1) && CStr(cut, eq + 1) == text[|Before(text, '=')| + 1..]
  {
    var text, cut := CStr(a, start), a[eq := NUL];
    BeforeIs(text, text[..eq - start], '=');
    Cut(a, start, eq);
    NulIs(cut, start, eq);
    SameEnd(a, start, eq + 1);
    SameSuffix(a, cut, eq + 1, eq + 1);
  }

  /** A string that ends at eq depends only on the characters up to eq. */
  lemma KeyStays(a: seq<char>, b: seq<char>, start: nat, eq: nat)
    requires |a| == |b| && start <= eq < |a| && NulAt(a, start) == eq && a[..eq + 1] == b[..eq + 1]
    ensures NulAt(b, start) == eq && CStr(b, start) == CStr(a, start)
  {
    assert forall k :: 0 <= k <= eq ==> b[k] == b[..eq + 1][k] == a[..eq + 1][k] == a[k];
    NulIs(b, start, eq);
  }

  /** The body of the fgets loop. */
  method ProcessLine(line: array<char>, out: AppConfig) returns (ok: bool)
    requires Terminated(line[..], 0)
    modifies line, out
    ensures var parsed := ParseLine(old(CStr(line[..], 0)), old(out.View()));
      ok == parsed.Some? && out.View() == if ok then parsed.value else old(out.View())
  {
    hide Trimmed, Before, NulAt, Assign;
    var start := TakeText(line);
    if line[start] == NUL {
      return true;
    }
    var eq := Strchr(line, start, '=');
    if eq.None? {
      return false;
    }
    ghost var text := CStr(line[..], start);
    assert text[eq.value - start] == '=';
    var key, value := SplitSetting(line, start, eq.value);
    ok := out.Set(CStr(line[..], key), CStr(line[..], value));
  }

  /** fgets into the line buffer. */
  method Fgets(line: array<char>, text: string) returns (n: nat)
    requires line.Length == LINE_SIZE && text != ""
    modifies line
    ensures n == FgetsLength(text) && Terminated(line[..], 0)
    ensures CStr(line[..], 0) == Before(text[..n], NUL)
  {
    n := FgetsLength(text);
    for i := 0 to n
      invariant line[..i] == text[..i]
    {
      line[i] := text[i];
    }
    line[n] := NUL;
    assert line[..n] == text[..n];
    FilledLine(line[..], text[..n]);
  }

  lemma FilledLine(a: seq<char>, s: string)
    requires |s| < |a| && a[..|s|] == s && a[|s|] == NUL
    ensures Terminated(a, 0) && CStr(a, 0) == Before(s, NUL)
  {
    var c := Before(s, NUL);
    assert forall k :: 0 <= k < |s| ==> a[k] == a[..|s|][k] == s[k];
    assert forall k :: 0 <= k < |c| ==> a[k] == s[k] == c[k];
    NulIs(a, 0, |c|);
  }

  method LoadConfigFile(file: FileState, out: AppConfig) returns (ok: bool)
    modifies out
    ensures (out.View(), ok) == LoadFile(file, old(out.View()))
  {
    if file.Missing? {
      return true;
    }
    if file.Unreadable? {
      return false;
    }
    var line := new char[LINE_SIZE];
    var rest := file.text;
    while rest != ""
      invariant ParseText(rest, out.View()) == ParseText(file.text, old(out.View()))
      decreases |rest|
    {
      var n := Fgets(line, rest);
      ok := ProcessLine(line, out);
      if !ok {
        return false;
      }
      rest := rest[n..];
    }
    return true;
  }
}
