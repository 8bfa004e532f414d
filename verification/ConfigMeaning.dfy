/** What a configuration file means, setting by setting, and what a reload takes over of it. */
module ConfigMeaning {
  import opened Common
  import opened Text
  import opened CString
  import opened Config
  import opened ConfigPrint
  import opened Reload

  // ---- numbers ----

  /** The white space of isspace. */
  predicate WhiteChar(c: char) {
    c as int in {32, 9, 10, 11, 12, 13}
  }

  predicate White(s: string) {
    forall i :: 0 <= i < |s| ==> WhiteChar(s[i])
  }

  /** A value beyond 64 bits is brought to the nearest that fits. */
  function Clamped(n: int): int {
    if n > 0x7FFF_FFFF_FFFF_FFFF then 0x7FFF_FFFF_FFFF_FFFF
    else if n < -0x8000_0000_0000_0000 then -0x8000_0000_0000_0000
    else n
  }

  lemma {:induction false} SkipsWhite(p: string, s: string)
    requires White(p) && (s == "" || !WhiteChar(s[0]))
    ensures SkipSpace(p + s) == s
  {
    if p == "" {
      assert p + s == s;
    } else {
      SkipsWhite(p[1..], s);
      assert (p + s)[1..] == p[1..] + s;
    }
  }

  /** 32 bits of a number, read as signed, are the number modulo 2^32. */
  lemma LowBits(v: int)
    ensures -0x8000_0000 <= ToInt32(v) < 0x8000_0000 && (ToInt32(v) - v) % 0x1_0000_0000 == 0
  {
  }

  /** atoi: white space, a sign, digits, anything. The value is clamped to 64 bits and then taken modulo 2^32. */
  lemma AtoiMeans(p: string, sign: string, n: nat, rest: string)
    requires White(p) && sign in {"", "+", "-"} && (rest == "" || !('0' <= rest[0] <= '9'))
    ensures var v := Clamped(if sign == "-" then -(n as int) else n);
      var r := Atoi(p + sign + Decimal(n) + rest);
      -0x8000_0000 <= r < 0x8000_0000 && (r - v) % 0x1_0000_0000 == 0
  {
    hide Decimal, DigitsValue, LeadingDigits, ToInt32, SkipSpace;
    var digits, t := Decimal(n), sign + Decimal(n) + rest;
    assert p + sign + digits + rest == p + t;
    assert t[0] == if sign == "" then digits[0] else sign[0];
    SkipsWhite(p, t);
    assert (if sign == "" then t else t[1..]) == digits + rest;
    DigitsEnd(digits, rest);
    DigitsValueOfDecimal(n);
    LowBits(Clamped(if sign == "-" then -(n as int) else n));
  }

  /** Text that does not start with a number counts as 0. */
  lemma AtoiOfText(p: string, rest: string)
    requires White(p) && (rest == "" || (!WhiteChar(rest[0]) && rest[0] !in "+-" && !('0' <= rest[0] <= '9')))
    ensures Atoi(p + rest) == 0
  {
    SkipsWhite(p, rest);
    hide SkipSpace;
    assert LeadingDigits(rest) == "";
  }

  // ---- one setting ----

  /** The key is known and its value acceptable. */
  predicate Acceptable(key: string, value: string) {
    || key in {"ifname", "socket_path", "log_file", "daemon"}
    || (key == "stats_interval_sec" && 1 <= Atoi(value) <= 3600)
    || (key == "xdp_mode" && value in {"skb", "generic", "drv", "native", "hw", "auto"})
  }

  /** What is kept of a text in a buffer of the given size. */
  function Fitted(value: string, size: nat): string
    requires size > 0
  {
    if |value| < size then value else value[..size - 1]
  }

  /** The flags a mode stands for: never attach over another program, and the mode bit. */
  predicate ModeIs(flags: XdpFlags, value: string) {
    && flags.ifNoExist
    && (value in {"skb", "generic"} ==> flags.mode == SkbMode)
    && (value in {"drv", "native"} ==> flags.mode == DrvMode)
    && (value == "hw" ==> flags.mode == HwMode)
    && (value == "auto" ==> flags.mode == AutoMode)
  }

  /** The field has the value a setting gives it. */
  predicate Given(f: Field, c: Settings, value: string) {
    match f
    case Ifname => c.ifname == Fitted(value, 16)
    case SocketPath => c.socketPath == Fitted(value, 108)
    case LogFile => c.logFile == Fitted(value, 256)
    case Interval => c.interval == Atoi(value)
    case Daemon => c.daemon == (Atoi(value) != 0)
    case Mode => ModeIs(c.flags, value)
  }

  /** The name a field has in a file. */
  predicate Named(f: Field, key: string) {
    match f
    case Ifname => key == "ifname"
    case SocketPath => key == "socket_path"
    case LogFile => key == "log_file"
    case Interval => key == "stats_interval_sec"
    case Daemon => key == "daemon"
    case Mode => key == "xdp_mode"
  }

  lemma NamesAre(f: Field, key: string)
    ensures FieldOf(key) == Some(f) <==> Named(f, key)
  {
  }

  lemma AssignExactly(key: string, value: string, c: Settings)
    ensures Assign(key, value, c).Some? <==> Acceptable(key, value)
    ensures forall f :: Named(f, key) && Assign(key, value, c).Some? ==>
              Given(f, Assign(key, value, c).value, value) && Given(f, SetField(f, value, Defaults()).value, value)
  {
    hide Atoi, Snprintf;
    TextsFitted(value);
  }

  lemma TextsFitted(value: string)
    ensures Snprintf(16, value) == Fitted(value, 16)
    ensures Snprintf(108, value) == Fitted(value, 108)
    ensures Snprintf(256, value) == Fitted(value, 256)
  {
  }

  // ---- whole documents ----

  /** Every setting of the document is acceptable. */
  predicate AllAcceptable(items: seq<Item>) {
    forall i :: 0 <= i < |items| && items[i].Setting? ==> Acceptable(items[i].key, items[i].value)
  }

  /** The value in the last line for a field. */
  function LastGiven(items: seq<Item>, f: Field): Option<string> {
    if items == [] then None
    else if Last(items).Setting? && Named(f, Last(items).key) then Some(Last(items).value)
    else LastGiven(Init(items), f)
  }

  lemma {:induction false} AppliesExactly(items: seq<Item>, c: Settings)
    ensures ApplyAll(items, c).1 <==> AllAcceptable(items)
  {
    hide Acceptable, Assign;
    if items != [] {
      if items[0].Setting? {
        AssignExactly(items[0].key, items[0].value, c);
      }
      if ApplyItem(items[0], c).Some? {
        AppliesExactly(items[1..], ApplyItem(items[0], c).value);
        assert items == [items[0]] + items[1..];
      }
    }
  }

  lemma {:induction false} LastValueSnoc(items: seq<Item>, item: Item, f: Field)
    ensures LastValue(items + [item], f) ==
      if item.Setting? && FieldOf(item.key) == Some(f) then Some(item.value) else LastValue(items, f)
  {
    hide FieldOf;
    if items != [] {
      LastValueSnoc(items[1..], item, f);
      assert (items + [item])[1..] == items[1..] + [item];
    }
  }

  lemma {:induction false} LastGivenIs(items: seq<Item>, f: Field)
    ensures LastValue(items, f) == LastGiven(items, f)
  {
    hide FieldOf, Named;
    if items != [] {
      LastGivenIs(Init(items), f);
      LastValueSnoc(Init(items), Last(items), f);
      assert items == Init(items) + [Last(items)];
      if Last(items).Setting? {
        NamesAre(f, Last(items).key);
      }
    }
  }

  lemma {:induction false} GivenIsAcceptable(items: seq<Item>, f: Field)
    requires AllAcceptable(items) && LastGiven(items, f).Some?
    ensures exists i :: 0 <= i < |items| && items[i].Setting? && Named(f, items[i].key) &&
                        items[i].value == LastGiven(items, f).value
  {
    hide Named, Acceptable;
    if Last(items).Setting? && Named(f, Last(items).key) {
      assert items[|items| - 1] == Last(items);
    } else {
      GivenIsAcceptable(Init(items), f);
      var i :| 0 <= i < |Init(items)| && Init(items)[i].Setting? && Named(f, Init(items)[i].key) &&
        Init(items)[i].value == LastGiven(Init(items), f).value;
      assert items[i] == Init(items)[i];
    }
  }

  /** A field of which the document says nothing stays; else it is as its last line says. */
  predicate AsDocumented(items: seq<Item>, f: Field, before: Settings, after: Settings) {
    match LastGiven(items, f)
    case None => SameField(f, after, before)
    case Some(value) => Given(f, after, value)
  }

  lemma SameGiven(f: Field, a: Settings, b: Settings, value: string)
    requires SameField(f, a, b) && Given(f, b, value)
    ensures Given(f, a, value)
  {
  }

  lemma {:induction false} DocumentSays(items: seq<Item>, c: Settings, f: Field)
    requires AllAcceptable(items)
    ensures AsDocumented(items, f, c, ApplyAll(items, c).0)
  {
    hide Acceptable, Assign, Named, Given, SetField, SameField;
    forall i | 0 <= i < |items| ensures ValidSetting(items[i]) {
      if items[i].Setting? {
        AssignExactly(items[i].key, items[i].value, Defaults());
      }
    }
    LastLineWins(items, c, f);
    LastGivenIs(items, f);
    if LastGiven(items, f).Some? {
      GivenIsAcceptable(items, f);
      var i :| 0 <= i < |items| && items[i].Setting? && Named(f, items[i].key) &&
        items[i].value == LastGiven(items, f).value;
      AssignExactly(items[i].key, items[i].value, Defaults());
      SameGiven(f, ApplyAll(items, c).0, SetField(f, items[i].value, Defaults()).value, items[i].value);
    }
  }

  /** Loading a document succeeds if and only if every setting in it has a known key and an acceptable value; then every
    field is as its last line says, and the others are as before. A missing file changes nothing, an unreadable one is
    an error. */
  lemma LoadMeans(items: seq<Item>, closed: bool, c: Settings)
    requires forall i :: 0 <= i < |items| ==> WellFormed(items[i])
    ensures var (after, ok) := LoadFile(Contents(RenderAll(items, closed)), c);
      && (ok <==> AllAcceptable(items))
      && (ok ==> forall f :: AsDocumented(items, f, c, after))
    ensures LoadFile(Missing, c) == (c, true) && !LoadFile(Unreadable, c).1
  {
    hide WellFormed, AllAcceptable, AsDocumented, ApplyAll, ParseText;
    DocumentParses(items, closed, c);
    AppliesExactly(items, c);
    if AllAcceptable(items) {
      forall f ensures AsDocumented(items, f, c, ApplyAll(items, c).0) {
        DocumentSays(items, c, f);
      }
    }
  }

  /** The fields a running loader takes over. */
  predicate TakenOver(f: Field) {
    f in {Interval, Daemon, LogFile}
  }

  /** A reload succeeds exactly when the document loads. Then interval, daemon flag and log file are as it says; the
    other fields stay, and after a failure all do. */
  lemma ReloadTakesOver(items: seq<Item>, closed: bool, c: Settings)
    requires forall i :: 0 <= i < |items| ==> WellFormed(items[i])
    ensures var (after, ok) := Reloaded(Contents(RenderAll(items, closed)), c);
      && (ok <==> AllAcceptable(items))
      && (ok ==> forall f :: if TakenOver(f) then AsDocumented(items, f, c, after) else SameField(f, after, c))
      && (!ok ==> after == c)
    ensures Reloaded(Missing, c) == (c, true) && Reloaded(Unreadable, c) == (c, false)
  {
    hide WellFormed, AllAcceptable, RenderAll, LoadFile;
    LoadMeans(items, closed, c);
    var loaded := LoadFile(Contents(RenderAll(items, closed)), c).0;
    var after := Reloaded(Contents(RenderAll(items, closed)), c).0;
    if AllAcceptable(items) {
      forall f ensures if TakenOver(f) then AsDocumented(items, f, c, after) else SameField(f, after, c) {
        if TakenOver(f) {
          CarriedOver(items, f, c, loaded, after);
        }
      }
    }
  }

  lemma CarriedOver(items: seq<Item>, f: Field, c: Settings, loaded: Settings, after: Settings)
    requires AsDocumented(items, f, c, loaded) && SameField(f, after, loaded)
    ensures AsDocumented(items, f, c, after)
  {
  }

  // ---- long lines ----

  /** A read stops behind the first newline, or after 511 characters, or at the end. */
  lemma ReadsAtMost511(text: string)
    requires text != ""
    ensures forall i :: 0 <= i < |text| && i < 511 && text[i] == '\n' && '\n' !in text[..i] ==>
              FgetsLength(text) == i + 1
    ensures (|text| >= 511 && '\n' !in text[..511]) ==> FgetsLength(text) == 511
    ensures (|text| < 511 && '\n' !in text) ==> FgetsLength(text) == |text|
  {
    forall i | 0 <= i < |text| && i < 511 && text[i] == '\n' && '\n' !in text[..i] ensures FgetsLength(text) == i + 1 {
      BeforeIs(text, text[..i], '\n');
    }
    if |text| >= 511 && '\n' !in text[..511] {
      BeforeLasts(text, 511);
    }
  }

  lemma BeforeLasts(text: string, n: nat)
    requires n <= |text| && '\n' !in text[..n]
    ensures |Before(text, '\n')| >= n
  {
    var b := Before(text, '\n');
    assert forall i :: 0 <= i < n ==> text[i] == text[..n][i];
  }

  // ---- trimming ----

  /** Blanks, tabs, newlines and carriage returns around a text are trimmed off, and nothing else. */
  lemma TrimsBlanks(p: string, s: string, q: string)
    requires forall i :: 0 <= i < |p| ==> p[i] in " \t\n\r"
    requires forall i :: 0 <= i < |q| ==> q[i] in " \t\n\r"
    requires s == "" || (s[0] !in " \t\n\r" && s[|s| - 1] !in " \t\n\r")
    ensures Trimmed(p + s + q) == s
  {
    BlanksAre();
    hide Trimmed;
    TrimPads(p, s, q);
  }

  lemma BlanksAre()
    ensures forall c :: IsBlank(c) <==> c in " \t\n\r"
  {
  }
}
