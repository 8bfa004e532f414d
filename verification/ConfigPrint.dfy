/** What a configuration file means, as a document of items, and that printing and loading are inverse. */
module ConfigPrint {
  import opened Common
  import opened Text
  import opened CString
  import opened Config

  // ---- documents ----

  datatype Item =
    | Idle(pad: string, remark: Option<string>)
    | Setting(lead: string, key: string, beforeEq: string, afterEq: string, value: string, trail: string,
              remark: Option<string>)

  predicate IsPad(s: string) {
    forall i :: 0 <= i < |s| ==> s[i] == ' ' || s[i] == '\t' || s[i] == '\r'
  }

  predicate Plain(s: string) {
    '\n' !in s && NUL !in s
  }

  predicate NoOuterBlank(s: string) {
    s == "" || (!IsBlank(s[0]) && !IsBlank(s[|s| - 1]))
  }

  function RemarkText(r: Option<string>): string {
    if r.Some? then "#" + r.value else ""
  }

  function Body(item: Item): string {
    match item
    case Idle(pad, remark) => pad + RemarkText(remark)
    case Setting(lead, key, beforeEq, afterEq, value, trail, remark) =>
      lead + (key + beforeEq + "=" + afterEq + value) + trail + RemarkText(remark)
  }

  function LineEnd(closed: bool): string {
    if closed then "\n" else ""
  }

  /** A line, closed by a newline or not. */
  function Render(item: Item, closed: bool): string {
    Body(item) + LineEnd(closed)
  }

  /** A document; `closed` says whether its last line ends in a newline, as all the others do. */
  function RenderAll(items: seq<Item>, closed: bool): string {
    if items == [] then ""
    else Render(items[0], closed || |items| > 1) + RenderAll(items[1..], closed)
  }

  predicate WellFormed(item: Item) {
    && |Body(item)| + 1 < 512
    && match item
       case Idle(pad, remark) => IsPad(pad) && (remark.Some? ==> Plain(remark.value))
       case Setting(lead, key, beforeEq, afterEq, value, trail, remark) =>
         && IsPad(lead) && IsPad(beforeEq) && IsPad(afterEq) && IsPad(trail)
         && key != "" && NoOuterBlank(key) && Plain(key) && '=' !in key && '#' !in key
         && NoOuterBlank(value) && Plain(value) && '#' !in value
         && (remark.Some? ==> Plain(remark.value))
  }

  /** What an item does to the settings. */
  function ApplyItem(item: Item, c: Settings): Option<Settings> {
    if item.Setting? then Assign(item.key, item.value, c) else Some(c)
  }

  function ApplyAll(items: seq<Item>, c: Settings): (Settings, bool) {
    if items == [] then (c, true)
    else
      match ApplyItem(items[0], c)
      case None => (c, false)
      case Some(next) => ApplyAll(items[1..], next)
  }

  // ---- one rendered line parses as its item ----

  /** Blanks around a text are trimmed off. */
  lemma TrimPads(p: string, s: string, q: string)
    requires (forall k :: 0 <= k < |p| ==> IsBlank(p[k])) && (forall k :: 0 <= k < |q| ==> IsBlank(q[k]))
    requires NoOuterBlank(s)
    ensures Trimmed(p + s + q) == s
  {
    hide IsBlank, Trimmed;
    var text := p + s + q;
    if s == "" {
      AllBlank(text);
    } else {
      assert forall k :: 0 <= k < |p| ==> text[k] == p[k];
      assert forall k :: |p| + |s| <= k < |text| ==> text[k] == q[k - |p| - |s|];
      assert text[|p|] == s[0] && text[|p| + |s| - 1] == s[|s| - 1];
      TrimmedIs(text, |p|, |p| + |s|);
      assert text[|p|..|p| + |s|] == s;
    }
  }

  lemma BeforeAbsent(s: string, c: char)
    requires c !in s
    ensures Before(s, c) == s
  {
  }

  /** The first c of s + [c] + t, when s has none. */
  lemma BeforeFirst(s: string, c: char, t: string)
    requires c !in s
    ensures Before(s + [c] + t, c) == s
  {
    BeforeIs(s + [c] + t, s, c);
  }

  /** The text left once the comment is cut off. */
  lemma CommentCut(body: string, remark: Option<string>, closed: bool)
    requires '#' !in body
    ensures Before(body + RemarkText(remark) + LineEnd(closed), '#') ==
      if remark.Some? then body else body + LineEnd(closed)
  {
    var end := LineEnd(closed);
    if remark.Some? {
      assert body + RemarkText(remark) + end == body + ['#'] + (remark.value + end);
      BeforeFirst(body, '#', remark.value + end);
    } else {
      assert body + RemarkText(remark) + end == body + end;
      BeforeAbsent(body + end, '#');
    }
  }

  /** The trimmed text of a setting's line: padding at the ends is gone, padding around '=' is not. */
  function Core(key: string, beforeEq: string, afterEq: string, value: string): string {
    key + beforeEq + "=" + (if value == "" then "" else afterEq + value)
  }

  lemma PadIsBlank(p: string)
    requires IsPad(p)
    ensures (forall k :: 0 <= k < |p| ==> IsBlank(p[k])) && Plain(p) && '#' !in p && '=' !in p
  {
  }

  lemma CoreIsTrimmed(lead: string, key: string, beforeEq: string, afterEq: string, value: string, trail: string,
                      end: string)
    requires IsPad(lead) && IsPad(afterEq) && IsPad(trail) && (end == "" || end == "\n")
    requires key != "" && NoOuterBlank(key) && NoOuterBlank(value)
    ensures Trimmed(lead + (key + beforeEq + "=" + afterEq + value) + trail + end) == Core(key, beforeEq, afterEq, value)
  {
    PadIsBlank(lead);
    PadIsBlank(afterEq);
    PadIsBlank(trail);
    hide Trimmed;
    var core := Core(key, beforeEq, afterEq, value);
    var tail := (if value == "" then afterEq else "") + trail + end;
    assert core[0] == key[0];
    assert core[|core| - 1] == if value == "" then '=' else value[|value| - 1];
    assert forall k :: 0 <= k < |tail| ==> IsBlank(tail[k]);
    TrimPads(lead, core, tail);
    assert lead + (key + beforeEq + "=" + afterEq + value) + trail + end == lead + core + tail;
  }

  lemma CoreSplits(key: string, beforeEq: string, afterEq: string, value: string)
    requires IsPad(beforeEq) && IsPad(afterEq)
    requires key != "" && NoOuterBlank(key) && '=' !in key && NoOuterBlank(value)
    ensures var core := Core(key, beforeEq, afterEq, value);
      && core != "" && '=' in core
      && Trimmed(Before(core, '=')) == key
      && Trimmed(core[|Before(core, '=')| + 1..]) == value
  {
    PadIsBlank(beforeEq);
    PadIsBlank(afterEq);
    hide Trimmed, IsBlank;
    var core := Core(key, beforeEq, afterEq, value);
    var rest := if value == "" then "" else afterEq + value;
    assert core == (key + beforeEq) + ['='] + rest;
    BeforeFirst(key + beforeEq, '=', rest);
    assert core[|key + beforeEq|] == '=';
    assert "" + key + beforeEq == key + beforeEq;
    TrimPads("", key, beforeEq);
    assert core[|key + beforeEq| + 1..] == rest == (if value == "" then "" else afterEq) + value + "";
    TrimPads(if value == "" then "" else afterEq, value, "");
  }

  lemma NoHashInSetting(item: Item)
    requires item.Setting? && WellFormed(item)
    ensures '#' !in item.lead + (item.key + item.beforeEq + "=" + item.afterEq + item.value) + item.trail
  {
    PadIsBlank(item.lead);
    PadIsBlank(item.beforeEq);
    PadIsBlank(item.afterEq);
    PadIsBlank(item.trail);
  }

  lemma SettingText(item: Item, closed: bool)
    requires item.Setting? && WellFormed(item)
    ensures Trimmed(Before(Render(item, closed), '#')) == Core(item.key, item.beforeEq, item.afterEq, item.value)
  {
    var body := item.lead + (item.key + item.beforeEq + "=" + item.afterEq + item.value) + item.trail;
    NoHashInSetting(item);
    hide Trimmed, Before, IsBlank, Core, NoOuterBlank;
    CommentCut(body, item.remark, closed);
    assert body + "" == body;
    CoreIsTrimmed(item.lead, item.key, item.beforeEq, item.afterEq, item.value, item.trail,
                  if item.remark.Some? then "" else LineEnd(closed));
  }

  lemma SettingParses(item: Item, closed: bool, c: Settings)
    requires item.Setting? && WellFormed(item)
    ensures ParseLine(Render(item, closed), c) == ApplyItem(item, c)
  {
    hide Trimmed, Before, Core, Assign, Render, IsPad, NoOuterBlank, Plain;
    SettingText(item, closed);
    CoreSplits(item.key, item.beforeEq, item.afterEq, item.value);
  }

  lemma IdleParses(item: Item, closed: bool, c: Settings)
    requires !item.Setting? && WellFormed(item)
    ensures ParseLine(Render(item, closed), c) == Some(c)
  {
    PadIsBlank(item.pad);
    hide Trimmed, Before;
    CommentCut(item.pad, item.remark, closed);
    AllBlank(if item.remark.Some? then item.pad else item.pad + LineEnd(closed));
  }

  lemma RenderIsOneLine(item: Item)
    requires WellFormed(item)
    ensures Plain(Body(item))
  {
    match item
    case Idle(pad, remark) => PadIsBlank(pad);
    case Setting(lead, key, beforeEq, afterEq, value, trail, remark) =>
      PadIsBlank(lead);
      PadIsBlank(beforeEq);
      PadIsBlank(afterEq);
      PadIsBlank(trail);
  }

  /** A rendered line, with or without its newline, is parsed as what its item says. */
  lemma LineParses(item: Item, closed: bool, c: Settings)
    requires WellFormed(item)
    ensures ParseLine(Before(Render(item, closed), NUL), c) == ApplyItem(item, c)
  {
    RenderIsOneLine(item);
    hide WellFormed, Render, ParseLine, ApplyItem, Body;
    NoNulInRender(item, closed);
    BeforeAbsent(Render(item, closed), NUL);
    if item.Setting? {
      SettingParses(item, closed, c);
    } else {
      IdleParses(item, closed, c);
      NoSettingKeeps(item, c);
    }
  }

  lemma NoNulInRender(item: Item, closed: bool)
    requires Plain(Body(item))
    ensures NUL !in Render(item, closed)
  {
  }

  lemma NoSettingKeeps(item: Item, c: Settings)
    requires !item.Setting?
    ensures ApplyItem(item, c) == Some(c)
  {
  }

  /** fgets takes exactly the first line of a rendered document. */
  lemma TakesOneLine(item: Item, closed: bool, rest: string)
    requires WellFormed(item) && (closed || rest == "") && (closed || Body(item) != "")
    ensures var text := Render(item, closed) + rest;
      && text != "" && FgetsLength(text) == |Render(item, closed)|
      && text[..|Render(item, closed)|] == Render(item, closed) && text[|Render(item, closed)|..] == rest
  {
    RenderIsOneLine(item);
    var text := Render(item, closed) + rest;
    if closed {
      assert text == Body(item) + ['\n'] + rest;
      BeforeFirst(Body(item), '\n', rest);
    } else {
      assert text == Body(item);
      BeforeAbsent(text, '\n');
    }
  }

  /** An empty last line without a newline is nothing at all. */
  lemma NothingLeft(item: Item, c: Settings)
    requires WellFormed(item) && Body(item) == ""
    ensures Render(item, false) == "" && ApplyItem(item, c) == Some(c)
  {
  }

  /** Loading a rendered document does what its items say, line by line, over any starting settings, whether or not
    its last line ends in a newline. */
  lemma {:induction false} DocumentParses(items: seq<Item>, closed: bool, c: Settings)
    requires forall i :: 0 <= i < |items| ==> WellFormed(items[i])
    ensures ParseText(RenderAll(items, closed), c) == ApplyAll(items, c)
  {
    hide WellFormed, Render, ParseLine, ApplyItem, FgetsLength, Before, Body;
    if items != [] {
      var first := closed || |items| > 1;
      if !first && Body(items[0]) == "" {
        NothingLeft(items[0], c);
        DocumentParses(items[1..], closed, c);
      } else {
        TakesOneLine(items[0], first, RenderAll(items[1..], closed));
        LineParses(items[0], first, c);
        if ApplyItem(items[0], c).Some? {
          DocumentParses(items[1..], closed, ApplyItem(items[0], c).value);
        }
      }
    }
  }

  // ---- which setting counts ----

  predicate ValidSetting(item: Item) {
    item.Setting? ==> Assign(item.key, item.value, Defaults()).Some?
  }

  /** The value of the last line that sets a field. */
  function LastValue(items: seq<Item>, f: Field): Option<string> {
    if items == [] then None
    else
      var later := LastValue(items[1..], f);
      if later.Some? then later
      else if items[0].Setting? && FieldOf(items[0].key) == Some(f) then Some(items[0].value)
      else None
  }

  predicate SameField(f: Field, a: Settings, b: Settings) {
    match f
    case Ifname => a.ifname == b.ifname
    case SocketPath => a.socketPath == b.socketPath
    case LogFile => a.logFile == b.logFile
    case Interval => a.interval == b.interval
    case Daemon => a.daemon == b.daemon
    case Mode => a.flags == b.flags
  }

  /** Setting a field succeeds or fails, and sets it, by the value alone, and leaves the other fields. */
  lemma SetFieldActs(f: Field, value: string, c: Settings, d: Settings, g: Field)
    ensures SetField(f, value, c).Some? <==> SetField(f, value, d).Some?
    ensures SetField(f, value, c).Some? ==> SameField(f, SetField(f, value, c).value, SetField(f, value, d).value)
    ensures SetField(f, value, c).Some? && g != f ==> SameField(g, SetField(f, value, c).value, c)
  {
    hide Atoi, ParseXdpMode, Snprintf;
  }

  /** Every field ends up as its last line says, or as it started when no line sets it. */
  lemma {:induction false} LastLineWins(items: seq<Item>, c: Settings, f: Field)
    requires forall i :: 0 <= i < |items| ==> ValidSetting(items[i])
    ensures ApplyAll(items, c).1
    ensures LastValue(items, f).None? ==> SameField(f, ApplyAll(items, c).0, c)
    ensures LastValue(items, f).Some? ==>
      && SetField(f, LastValue(items, f).value, Defaults()).Some?
      && SameField(f, ApplyAll(items, c).0, SetField(f, LastValue(items, f).value, Defaults()).value)
  {
    hide SetField;
    if items != [] {
      var item := items[0];
      if item.Setting? {
        SetFieldActs(FieldOf(item.key).value, item.value, c, Defaults(), f);
      }
      LastLineWins(items[1..], ApplyItem(item, c).value, f);
    }
  }

  // ---- printing ----

  function PrintMode(m: XdpMode): string {
    match m
    case AutoMode => "auto"
    case SkbMode => "skb"
    case DrvMode => "drv"
    case HwMode => "hw"
  }

  function PrintField(c: Settings, f: Field): string {
    match f
    case Ifname => c.ifname
    case SocketPath => c.socketPath
    case LogFile => c.logFile
    case Interval => if c.interval >= 0 then Decimal(c.interval) else ""
    case Daemon => if c.daemon then "1" else "0"
    case Mode => PrintMode(c.flags.mode)
  }

  predicate PrintableText(s: string, size: nat) {
    |s| < size && NoOuterBlank(s) && Plain(s) && '#' !in s
  }

  /** Settings a file can express. */
  predicate Printable(c: Settings) {
    && PrintableText(c.ifname, 16)
    && PrintableText(c.socketPath, 108)
    && PrintableText(c.logFile, 256)
    && 1 <= c.interval <= 3600
    && c.flags.ifNoExist
  }

  lemma AtoiOfDecimal(n: nat)
    requires n < 0x8000_0000
    ensures Atoi(Decimal(n)) == n
  {
    hide Decimal, DigitsValue, LeadingDigits, ToInt32;
    var s := Decimal(n);
    assert IsDigit(s[0]);
    DigitsValueOfDecimal(n);
    AllDigits(s);
    SmallInt32(n);
    assert SkipSpace(s) == s;
  }

  lemma SmallInt32(n: nat)
    requires n < 0x8000_0000
    ensures ToInt32(n) == n && n <= LONG_MAX
  {
  }

  /** A printed field sets that field back. */
  lemma PrintedFieldSets(c: Settings, f: Field, d: Settings)
    requires Printable(c)
    ensures SetField(f, PrintField(c, f), d).Some? && SameField(f, SetField(f, PrintField(c, f), d).value, c)
  {
    match f
    case Interval => AtoiOfDecimal(c.interval);
    case Daemon =>
      AtoiOfDecimal(0);
      AtoiOfDecimal(1);
      assert Decimal(0) == "0" && Decimal(1) == "1";
    case _ =>
  }

  /** Round trip: a file whose last line for each field prints c's value loads to c, over any starting settings,
    whatever the order, the padding, the comments and the overridden lines, with or without a last newline. */
  lemma RoundTrip(items: seq<Item>, closed: bool, c: Settings, start: Settings)
    requires Printable(c)
    requires forall i :: 0 <= i < |items| ==> WellFormed(items[i]) && ValidSetting(items[i])
    requires forall f :: LastValue(items, f) == Some(PrintField(c, f))
    ensures LoadFile(Contents(RenderAll(items, closed)), start) == (c, true)
  {
    DocumentParses(items, closed, start);
    var end := ApplyAll(items, start).0;
    forall f ensures SameField(f, end, c) && ApplyAll(items, start).1 {
      LastLineWins(items, start, f);
      PrintedFieldSets(c, f, Defaults());
    }
    assert SameField(Ifname, end, c) && SameField(SocketPath, end, c) && SameField(LogFile, end, c);
    assert SameField(Interval, end, c) && SameField(Daemon, end, c) && SameField(Mode, end, c);
  }

  /** A bare key=value line. */
  function PrintItem(c: Settings, f: Field): Item {
    Setting("", Name(f), "", "", PrintField(c, f), "", None)
  }

  /** The plain printout of some fields, in the given order. */
  function Printout(c: Settings, fields: seq<Field>): seq<Item> {
    if fields == [] then [] else [PrintItem(c, fields[0])] + Printout(c, fields[1..])
  }

  /** Lower-case letters and underscores only. */
  predicate IsWord(s: string) {
    0 < |s| <= 18 && forall i :: 0 <= i < |s| ==> 'a' <= s[i] <= 'z' || s[i] == '_'
  }

  lemma NamesAreWords(f: Field)
    ensures IsWord(Name(f))
  {
  }

  lemma NameShape(f: Field)
    ensures var key := Name(f);
      0 < |key| <= 18 && NoOuterBlank(key) && Plain(key) && '=' !in key && '#' !in key
  {
    hide Name;
    NamesAreWords(f);
  }

  lemma NameNamesField(f: Field)
    ensures FieldOf(Name(f)) == Some(f)
  {
  }

  lemma NameFine(f: Field)
    ensures var key := Name(f);
      && FieldOf(key) == Some(f)
      && 0 < |key| <= 18 && NoOuterBlank(key) && Plain(key) && '=' !in key && '#' !in key
  {
    hide Name, FieldOf, NoOuterBlank, Plain;
    NameShape(f);
    NameNamesField(f);
  }

  lemma PrintedValueFine(c: Settings, f: Field)
    requires Printable(c)
    ensures var v := PrintField(c, f);
      |v| < 300 && NoOuterBlank(v) && Plain(v) && '#' !in v
  {
    if f == Interval {
      assert Pow10(4) == 10000;
      DecimalWidth(c.interval, 4);
    }
  }

  lemma BareSettingFine(key: string, value: string)
    requires 0 < |key| <= 18 && NoOuterBlank(key) && Plain(key) && '=' !in key && '#' !in key
    requires |value| < 300 && NoOuterBlank(value) && Plain(value) && '#' !in value
    ensures WellFormed(Setting("", key, "", "", value, "", None))
  {
    hide NoOuterBlank, Plain;
  }

  lemma PrintItemFine(c: Settings, f: Field)
    requires Printable(c)
    ensures WellFormed(PrintItem(c, f)) && ValidSetting(PrintItem(c, f))
  {
    NameFine(f);
    PrintedValueFine(c, f);
    PrintedFieldSets(c, f, Defaults());
    hide WellFormed, NoOuterBlank, Plain, SetField, PrintField, Name, FieldOf, Printable;
    BareSettingFine(Name(f), PrintField(c, f));
  }

  lemma {:induction false} PrintoutFine(c: Settings, fields: seq<Field>, f: Field)
    requires Printable(c)
    ensures forall i :: 0 <= i < |Printout(c, fields)| ==>
              WellFormed(Printout(c, fields)[i]) && ValidSetting(Printout(c, fields)[i])
    ensures LastValue(Printout(c, fields), f) == if f in fields then Some(PrintField(c, f)) else None
  {
    hide WellFormed, ValidSetting, PrintField, Printable;
    if fields != [] {
      PrintoutFine(c, fields[1..], f);
      PrintItemFine(c, fields[0]);
      NameFine(fields[0]);
      assert Printout(c, fields)[1..] == Printout(c, fields[1..]);
    }
  }

  /** Loading the printout of all fields of any expressible settings, in any order, gives the settings back. */
  lemma PrintoutLoadsBack(c: Settings, fields: seq<Field>, closed: bool, start: Settings)
    requires Printable(c) && forall f :: f in fields
    ensures LoadFile(Contents(RenderAll(Printout(c, fields), closed)), start) == (c, true)
  {
    hide WellFormed, ValidSetting, PrintField, Printable, LastValue, Printout;
    forall f ensures LastValue(Printout(c, fields), f) == Some(PrintField(c, f)) {
      PrintoutFine(c, fields, f);
    }
    PrintoutFine(c, fields, Ifname);
    RoundTrip(Printout(c, fields), closed, c, start);
  }
}
