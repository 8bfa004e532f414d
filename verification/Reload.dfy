/** Configuration over the life of the loader: start-up, SIGHUP reloads, cleanup. */
module Reload {
  import opened Common
  import opened CString
  import opened Text
  import opened Config
  import opened ConfigPrint

  /** What a reload leaves in force: the interval, the daemon flag and the log file are taken over, the rest stays. */
  function Reloaded(file: FileState, c: Settings): (Settings, bool) {
    var (loaded, ok) := LoadFile(file, c);
    if ok then (c.(interval := loaded.interval, daemon := loaded.daemon, logFile := loaded.logFile), true)
    else (c, false)
  }

  function RunReloads(c: Settings, files: seq<FileState>): Settings {
    if files == [] then c else Reloaded(files[|files| - 1], RunReloads(c, files[..|files| - 1])).0
  }

  predicate IntervalOk(c: Settings) {
    1 <= c.interval <= 3600
  }

  /** The string fields fit their buffers. */
  predicate FieldsFit(c: Settings) {
    |c.ifname| < 16 && |c.socketPath| < 108 && |c.logFile| < 256
  }

  lemma AssignSafe(key: string, value: string, c: Settings)
    requires IntervalOk(c) && FieldsFit(c)
    ensures Assign(key, value, c).Some? ==> IntervalOk(Assign(key, value, c).value) && FieldsFit(Assign(key, value, c).value)
  {
    hide Atoi, ParseXdpMode;
  }

  lemma ParseLineSafe(line: string, c: Settings)
    requires IntervalOk(c) && FieldsFit(c)
    ensures var next := ParseLine(line, c);
      next.Some? ==> IntervalOk(next.value) && FieldsFit(next.value)
  {
    hide Assign, Trimmed, Before;
    var text := Trimmed(Before(line, '#'));
    if text != "" && '=' in text {
      AssignSafe(Trimmed(Before(text, '=')), Trimmed(text[|Before(text, '=')| + 1..]), c);
    }
  }

  /** However the file reads, parsing keeps the interval in range and every string inside its buffer. */
  lemma {:induction false} ParseTextSafe(text: string, c: Settings)
    requires IntervalOk(c) && FieldsFit(c)
    ensures IntervalOk(ParseText(text, c).0) && FieldsFit(ParseText(text, c).0)
    decreases |text|
  {
    hide ParseLine, Before, IntervalOk, FieldsFit;
    if text != "" {
      var n := FgetsLength(text);
      ParseLineSafe(Before(text[..n], NUL), c);
      var next := ParseLine(Before(text[..n], NUL), c);
      if next.Some? {
        ParseTextSafe(text[n..], next.value);
      }
    }
  }

  /** Over any sequence of reloads, good or bad: the interval stays in 1..3600, every string fits, and the interface,
    the XDP flags and the socket path keep their start-up values. */
  lemma {:induction false} ReloadsSafe(c: Settings, files: seq<FileState>)
    requires IntervalOk(c) && FieldsFit(c)
    ensures var end := RunReloads(c, files);
      && IntervalOk(end) && FieldsFit(end)
      && end.ifname == c.ifname && end.flags == c.flags && end.socketPath == c.socketPath
  {
    if files != [] {
      var before, file := RunReloads(c, files[..|files| - 1]), files[|files| - 1];
      ReloadsSafe(c, files[..|files| - 1]);
      if file.Contents? {
        ParseTextSafe(file.text, before);
      }
      hide ParseText;
    }
  }

  /** Whether text parses, and what it sets, is decided by the text: over two starting points a field either takes
    the same new value or is left alone in both. */
  ghost predicate Acts(f: Field, c: Settings, c': Settings, d: Settings, d': Settings) {
    SameField(f, c', d') || (SameField(f, c', c) && SameField(f, d', d))
  }

  lemma ParseLineActs(line: string, c: Settings, d: Settings, f: Field)
    ensures ParseLine(line, c).Some? <==> ParseLine(line, d).Some?
    ensures ParseLine(line, c).Some? ==> Acts(f, c, ParseLine(line, c).value, d, ParseLine(line, d).value)
  {
    hide SetField, Trimmed, Before;
    var text := Trimmed(Before(line, '#'));
    if text != "" && '=' in text {
      var g := FieldOf(Trimmed(Before(text, '=')));
      hide FieldOf;
      if g.Some? {
        SetFieldActs(g.value, Trimmed(text[|Before(text, '=')| + 1..]), c, d, f);
        SetFieldActs(g.value, Trimmed(text[|Before(text, '=')| + 1..]), d, c, f);
      }
    }
  }

  lemma ActsCompose(f: Field, c0: Settings, c1: Settings, c2: Settings, d0: Settings, d1: Settings, d2: Settings)
    requires Acts(f, c0, c1, d0, d1) && Acts(f, c1, c2, d1, d2)
    ensures Acts(f, c0, c2, d0, d2)
  {
  }

  lemma {:induction false} ParseTextActs(text: string, c: Settings, d: Settings, f: Field)
    ensures ParseText(text, c).1 == ParseText(text, d).1
    ensures Acts(f, c, ParseText(text, c).0, d, ParseText(text, d).0)
    decreases |text|
  {
    hide ParseLine, Before, FgetsLength, Acts;
    ActsKept(f, c, d);
    if text != "" {
      var n := FgetsLength(text);
      var line := Before(text[..n], NUL);
      ParseLineActs(line, c, d, f);
      if ParseLine(line, c).Some? {
        var c1, d1 := ParseLine(line, c).value, ParseLine(line, d).value;
        ParseTextActs(text[n..], c1, d1, f);
        ActsCompose(f, c, c1, ParseText(text[n..], c1).0, d, d1, ParseText(text[n..], d1).0);
      }
    }
  }

  lemma ActsKept(f: Field, c: Settings, d: Settings)
    ensures Acts(f, c, c, d, d)
  {
  }

  lemma LoadActs(file: FileState, c: Settings, d: Settings, f: Field)
    ensures LoadFile(file, c).1 == LoadFile(file, d).1
    ensures Acts(f, c, LoadFile(file, c).0, d, LoadFile(file, d).0)
  {
    hide Acts;
    ActsKept(f, c, d);
    if file.Contents? {
      ParseTextActs(file.text, c, d, f);
    }
    hide ParseText;
  }

  /** Reloading the same file a second time changes nothing further. */
  lemma ReloadIdempotent(file: FileState, c: Settings)
    ensures Reloaded(file, Reloaded(file, c).0) == Reloaded(file, c)
  {
    hide LoadFile;
    var once := Reloaded(file, c).0;
    LoadActs(file, c, once, Interval);
    LoadActs(file, c, once, Daemon);
    LoadActs(file, c, once, LogFile);
  }

  /** The file loads: missing, or readable without a faulty line. The settings it is loaded over do not matter. */
  predicate Loads(file: FileState) {
    LoadFile(file, Defaults()).1
  }

  lemma LoadsOverAnything(file: FileState, c: Settings)
    ensures Reloaded(file, c).1 == Loads(file)
    ensures !Loads(file) ==> Reloaded(file, c).0 == c
  {
    LoadActs(file, c, Defaults(), Interval);
    hide LoadFile;
  }

  /** The files of a run of reloads that load. */
  function Good(files: seq<FileState>): seq<FileState> {
    if files == [] then []
    else Good(files[..|files| - 1]) + (if Loads(files[|files| - 1]) then [files[|files| - 1]] else [])
  }

  /** Failed reloads leave no trace: any run of reloads ends as if only the files that load had been there. */
  lemma {:induction false} FailedReloadsVanish(c: Settings, files: seq<FileState>)
    ensures RunReloads(c, files) == RunReloads(c, Good(files))
  {
    hide Reloaded, Loads;
    if files != [] {
      var init, file := files[..|files| - 1], files[|files| - 1];
      FailedReloadsVanish(c, init);
      LoadsOverAnything(file, RunReloads(c, init));
      if Loads(file) {
        assert (Good(init) + [file])[..|Good(init)|] == Good(init);
      } else {
        assert Good(init) + [] == Good(init);
      }
    }
  }

  // ---- the running loader ----

  /** Where log lines go besides syslog: no file for an empty name or "syslog", or when fopen fails. */
  function LogTarget(logFile: string, canOpen: bool): Option<string> {
    if logFile != "" && logFile != "syslog" && canOpen then Some(logFile) else None
  }

  class Loader {
    const cfg: AppConfig
    var attached: bool
    var listening: bool
    var log: Option<string>
    ghost const boundPath: string
    ghost const attachFlags: XdpFlags

    /** Cleanup will name what start-up used, and an open log is the configured one. */
    ghost predicate Valid()
      reads this, cfg
    {
      && IntervalOk(cfg.View()) && FieldsFit(cfg.View())
      && cfg.socketPath == boundPath && cfg.flags == attachFlags
      && (log.Some? ==> log.value == cfg.logFile)
    }

    /** Start-up, as far as it gets: the socket is bound at the configured path, the program attached to an interface
      with the configured flags. */
    constructor (cfg: AppConfig, canOpen: bool, attached: bool, listening: bool)
      requires IntervalOk(cfg.View()) && FieldsFit(cfg.View())
      ensures Valid() && this.cfg == cfg && this.attached == attached && this.listening == listening
      ensures boundPath == cfg.socketPath && attachFlags == cfg.flags && log == LogTarget(cfg.logFile, canOpen)
    {
      this.cfg, this.attached, this.listening := cfg, attached, listening;
      log := LogTarget(cfg.logFile, canOpen);
      boundPath, attachFlags := cfg.socketPath, cfg.flags;
    }

    /** `open_log_file` */
    method OpenLogFile(canOpen: bool)
      modifies `log
      ensures log == if cfg.logFile == "" || cfg.logFile == "syslog" || !canOpen then None else Some(cfg.logFile)
    {
      log := None;
      if cfg.logFile == "" || cfg.logFile == "syslog" {
        return;
      }
      if canOpen {
        log := Some(cfg.logFile);
      }
    }

    /** Puts the fields back that a running loader does not change. */
    method KeepFixed(next: AppConfig)
      requires next != cfg && FieldsFit(cfg.View())
      modifies next
      ensures next.View() == old(next.View()).(ifname := cfg.ifname, flags := cfg.flags, socketPath := cfg.socketPath)
    {
      if next.ifname != cfg.ifname || next.flags != cfg.flags {
        next.ifname := Snprintf(IF_NAMESIZE, cfg.ifname);
        next.flags := cfg.flags;
      }
      if next.socketPath != cfg.socketPath {
        next.socketPath := Snprintf(SUN_PATH_SIZE, cfg.socketPath);
      }
    }

    /** Takes the changeable fields over; the log is reopened when its name changes. */
    method TakeOver(next: AppConfig, canOpen: bool)
      requires next != cfg && FieldsFit(next.View())
      modifies cfg, `log
      ensures cfg.View() ==
        old(cfg.View()).(interval := next.interval, daemon := next.daemon, logFile := next.logFile)
      ensures log == if next.logFile != old(cfg.logFile) then LogTarget(next.logFile, canOpen) else old(log)
    {
      cfg.interval := next.interval;
      cfg.daemon := next.daemon;
      if next.logFile != cfg.logFile {
        cfg.logFile := Snprintf(LOG_FILE_SIZE, next.logFile);
        OpenLogFile(canOpen);
      }
    }

    /** `reload_config_runtime`: the log is reopened exactly when a successful reload changes its name. */
    method ReloadConfigRuntime(file: FileState, canOpen: bool) returns (ok: bool)
      requires Valid()
      modifies cfg, `log
      ensures Valid() && (cfg.View(), ok) == Reloaded(file, old(cfg.View()))
      ensures log == if cfg.logFile != old(cfg.logFile) then LogTarget(cfg.logFile, canOpen) else old(log)
    {
      hide LoadFile, IntervalOk, FieldsFit;
      ghost var start := cfg.View();
      LoadSafe(file, start);
      var next := new AppConfig(cfg.View());
      ok := LoadConfigFile(file, next);
      if !ok {
        return;
      }
      KeepFixed(next);
      TakeOver(next, canOpen);
    }

    /** `cleanup`: the program is detached with the flags it was attached with, if it was attached, and the bound path
      is unlinked, if it was bound; whether detaching works is not looked at. A second call does neither. */
    method Cleanup() returns (detached: Option<XdpFlags>, unlinked: Option<string>)
      requires Valid()
      modifies `attached, `listening, `log
      ensures Valid() && !attached && !listening && log == None
      ensures detached == if old(attached) then Some(attachFlags.(ifNoExist := false)) else None
      ensures unlinked == if old(listening) then Some(boundPath) else None
    {
      detached, unlinked := None, None;
      if attached {
        detached := Some(cfg.flags.(ifNoExist := false));
        attached := false;
      }
      if listening {
        listening := false;
        unlinked := Some(cfg.socketPath);
      }
      log := None;
    }
  }

  lemma LoadSafe(file: FileState, c: Settings)
    requires IntervalOk(c) && FieldsFit(c)
    ensures IntervalOk(LoadFile(file, c).0) && FieldsFit(LoadFile(file, c).0)
    ensures var end := Reloaded(file, c).0; IntervalOk(end) && FieldsFit(end)
  {
    if file.Contents? {
      ParseTextSafe(file.text, c);
    }
    hide ParseText;
  }
}
