/**
 The configuration file: how settings are written, line by line, how lines are read, and exactly when what
 was written is read back.
 */
module ConfigFile {
  import opened Wrappers
  import opened Expressions
  import opened ConfigStrings

  const PREFIX := "CONFIG_"
  const UNSET := "is not set"

  /** The value of a setting: of a boolean or tristate symbol, or the text of another. */
  datatype Reading = Tri(tri: Tristate) | Text(text: string)

  /** What a file consists of. */
  datatype Item =
    | Setting(name: string, stype: SymbolType, value: Reading)
    | Blank
    | Rule
    | Note(text: string)

  type Types = map<string, SymbolType>
  type Values = map<string, Reading>

  predicate LogicalType(t: SymbolType) {
    t == TBoolean || t == TTristate
  }

  predicate TextType(t: SymbolType) {
    t == TInt || t == THex || t == TString
  }

  // ----- searching -----

  // The first place of a character, or the end.
  function Find(s: string, c: char, from: nat): (k: nat)
    requires from <= |s|
    ensures from <= k <= |s| && (k < |s| ==> s[k] == c)
    ensures forall i :: from <= i < k ==> s[i] != c
    decreases |s| - from
  {
    if from == |s| || s[from] == c then from else Find(s, c, from + 1)
  }

  predicate StartsWith(s: string, from: nat, t: string) {
    from + |t| <= |s| && s[from..from + |t|] == t
  }

  // ----- writing -----

  /** The text of a value in the file. */
  function ValueText(stype: SymbolType, value: Reading): string {
    match value
    case Tri(t) => TriText(t)
    case Text(s) => if stype == TString then Quoted(s) else s
  }

  function Print(item: Item): string {
    match item
    case Blank => "\n"
    case Rule => "#\n"
    case Note(text) => "# " + text + "\n"
    case Setting(name, stype, value) =>
      if value == Tri(NO) then "# " + PREFIX + name + " " + UNSET + "\n"
      else PREFIX + name + "=" + ValueText(stype, value) + "\n"
  }

  function Written(items: seq<Item>): string {
    if items == [] then "" else Print(items[0]) + Written(items[1..])
  }

  // ----- reading -----

  // The text up to the end of the line, without it.
  function CutLine(v: string): string {
    var k := Find(v, '\n', 0);
    if k == |v| then v else if k > 0 && v[k - 1] == '\r' then v[..k - 1] else v[..k]
  }

  /** The value that a text sets for a symbol of the type, if any. */
  function ParseValue(stype: SymbolType, p: string): Option<Reading> {
    match stype
    case TTristate => if p != "" && p[0] == 'm' then Some(Tri(MOD)) else ParseYesNo(p)
    case TBoolean => ParseYesNo(p)
    case TString =>
      if p == "" || p[0] != '"' then None
      else
        var s := Unquoted(p[1..]);
        if s.None? then None else Some(Text(s.value))
    case TInt => if IsDecimal(p) then Some(Text(p)) else None
    case THex => if IsHexadecimal(p) then Some(Text(p)) else None
    case _ => None
  }

  function ParseYesNo(p: string): Option<Reading> {
    if p == "" then None else if p[0] == 'y' then Some(Tri(YES)) else if p[0] == 'n' then Some(Tri(NO)) else None
  }

  datatype Assignment = Assignment(name: string, value: Reading)

  /** The setting that a line makes, if any. */
  function ParseLine(types: Types, line: string): Option<Assignment> {
    if line != "" && line[0] == '#' then ParseUnset(types, line)
    else if StartsWith(line, 0, PREFIX) then ParseSetting(types, line)
    else None
  }

  function ParseUnset(types: Types, line: string): Option<Assignment> {
    if !StartsWith(line, 2, PREFIX) then None
    else
      var from := 2 + |PREFIX|;
      var k := Find(line, ' ', from);
      if k == |line| || !StartsWith(line, k + 1, UNSET) then None
      else
        var name := line[from..k];
        if name in types && LogicalType(types[name]) then Some(Assignment(name, Tri(NO))) else None
  }

  function ParseSetting(types: Types, line: string): Option<Assignment>
    requires StartsWith(line, 0, PREFIX)
  {
    var k := Find(line, '=', |PREFIX|);
    if k == |line| then None
    else
      var name := line[|PREFIX|..k];
      if name !in types then None
      else
        var v := ParseValue(types[name], CutLine(line[k + 1..]));
        if v.None? then None else Some(Assignment(name, v.value))
  }

  function Set(values: Values, a: Option<Assignment>): Values {
    if a.None? then values else values[a.value.name := a.value.value]
  }

  // Up to the first end of a line and including it.
  function FirstLine(text: string): (line: string)
    ensures |line| <= |text| && text[..|line|] == line && (text != "" ==> line != "")
  {
    var k := Find(text, '\n', 0);
    if k == |text| then text else text[..k + 1]
  }

  // The text up to the zero that ends it.
  function CString(s: string): string {
    s[..Find(s, '\0', 0)]
  }

  // What the reader sees of a line. It skips the character behind a `#` without looking at it.
  function Seen(line: string): string {
    if |line| >= 2 && line[0] == '#' then line[..2] + CString(line[2..]) else CString(line)
  }

  /** The settings after reading all lines. */
  function ReadAll(types: Types, values: Values, text: string): Values
    decreases |text|
  {
    if text == "" then values
    else
      var line := FirstLine(text);
      ReadAll(types, Set(values, ParseLine(types, Seen(line))), text[|line|..])
  }

  // ----- what is written is read -----

  // The settings in a list, later ones over earlier ones.
  function ValuesOf(values: Values, items: seq<Item>): Values
    decreases |items|
  {
    if items == [] then values else ValuesOf(After(values, items[0]), items[1..])
  }

  function After(values: Values, item: Item): Values {
    if item.Setting? then values[item.name := item.value] else values
  }

  predicate NameLike(name: string) {
    ' ' !in name && '=' !in name && '\n' !in name
  }

  // Values are of their symbol's type, and C strings.
  predicate Fits(stype: SymbolType, value: Reading) {
    if value.Tri? then LogicalType(stype) else TextType(stype) && '\0' !in value.text
  }

  /** Settings have the types of their symbols, and nothing is read from notes. */
  predicate WellMade(types: Types, item: Item) {
    match item
    case Setting(name, stype, value) =>
      NameLike(name) && '\0' !in name && name in types && types[name] == stype && Fits(stype, value)
    case Note(text) => Quiet(types, Print(item))
    case _ => true
  }

  predicate Quiet(types: Types, text: string) {
    ReadAll(types, map[], text) == map[]
  }

  /** A string without line ends, a number that is one, a boolean that is not `m`. */
  predicate Safe(stype: SymbolType, value: Reading) {
    match value
    case Tri(t) => LogicalType(stype) && (stype == TBoolean ==> t != MOD)
    case Text(s) => TextType(stype) && (if stype == TString then '\n' !in s else ValidText(stype, s))
  }

  predicate SafeItem(item: Item) {
    item.Setting? ==> Safe(item.stype, item.value)
  }

  // A text with one line end, at its end.
  predicate IsLine(line: string) {
    line != "" && line[|line| - 1] == '\n' && forall i :: 0 <= i < |line| - 1 ==> line[i] != '\n'
  }

  lemma ReadOneLine(types: Types, values: Values, line: string, rest: string)
    requires IsLine(line)
    ensures ReadAll(types, values, line + rest) == ReadAll(types, Set(values, ParseLine(types, Seen(line))), rest)
  {
    var text := line + rest;
    var k := Find(text, '\n', 0);
    assert text[|line| - 1] == '\n';
    assert k == |line| - 1;
    assert text[..k + 1] == line && text[|line|..] == rest;
  }

  lemma SeenWhole(line: string)
    requires '\0' !in line
    ensures Seen(line) == line
  {}

  // The first line of a text that ends with a line end.
  lemma FirstIsLine(text: string)
    requires text != "" && text[|text| - 1] == '\n'
    ensures var line := FirstLine(text);
            && IsLine(line) && text == line + text[|line|..]
            && (text[|line|..] == "" || text[|line|..][|text[|line|..]| - 1] == '\n')
  {}

  // What the first line sets.
  function FirstSetting(types: Types, text: string): Option<Assignment> {
    ParseLine(types, Seen(FirstLine(text)))
  }

  /** What a text sets is set on top of what there is. */
  lemma {:induction false} ReadOnTop(types: Types, values: Values, text: string)
    ensures ReadAll(types, values, text) == values + ReadAll(types, map[], text)
    decreases |text|
  {
    if text != "" {
      var more, a := text[|FirstLine(text)|..], FirstSetting(types, text);
      ReadOnTop(types, Set(values, a), more);
      ReadOnTop(types, Set(map[], a), more);
      SetOnTop(values, a, ReadAll(types, map[], more));
    }
  }

  lemma SetOnTop(values: Values, a: Option<Assignment>, more: Values)
    ensures Set(values, a) + more == values + (Set(map[], a) + more)
  {}

  /** Whole lines can be read first. */
  lemma {:induction false} ReadFirst(types: Types, values: Values, text: string, rest: string)
    requires text == "" || text[|text| - 1] == '\n'
    ensures ReadAll(types, values, text + rest) == ReadAll(types, ReadAll(types, values, text), rest)
    decreases |text|
  {
    if text == "" {
      assert text + rest == rest;
    } else {
      FirstIsLine(text);
      var line := FirstLine(text);
      var more, next := text[|line|..], Set(values, FirstSetting(types, text));
      RegroupText(line, more, rest);
      ReadOneLine(types, values, line, more + rest);
      ReadFirst(types, next, more, rest);
    }
  }

  lemma {:induction false} EscapedFrom(s: string, c: char)
    requires c in Escaped(s)
    ensures c == '\\' || c in s
  {
    var first := if Special(s[0]) then ['\\', s[0]] else [s[0]];
    if c !in first {
      EscapedFrom(s[1..], c);
    }
  }

  // The text of the value stays on its line, and is not cut short.
  predicate OnOneLine(stype: SymbolType, value: Reading) {
    var v := ValueText(stype, value);
    '\n' !in v && (v == "" || v[|v| - 1] != '\r')
  }

  // Safe values do.
  lemma SafeText(stype: SymbolType, value: Reading)
    requires Safe(stype, value)
    ensures OnOneLine(stype, value)
  {
    if value.Text? {
      var s := value.text;
      if stype == TString {
        if '\n' in Escaped(s) {
          EscapedFrom(s, '\n');
        }
      } else if stype == TInt {
        assert forall i :: 0 <= i < |s| ==> s[i] == '-' || IsDigit(s[i]) by {
          assert forall i :: 0 <= i < |WithoutSign(s)| ==> IsDigit(WithoutSign(s)[i]);
          assert s == WithoutSign(s) || s == "-" + WithoutSign(s);
        }
      } else {
        assert forall i :: 0 <= i < |s| ==> s[i] == 'x' || s[i] == 'X' || IsHexDigit(s[i]) by {
          assert forall i :: 0 <= i < |WithoutPrefix(s)| ==> IsHexDigit(WithoutPrefix(s)[i]);
          assert s == WithoutPrefix(s) || s == s[..2] + WithoutPrefix(s);
        }
      }
    }
  }

  lemma CutAtEnd(v: string)
    requires '\n' !in v && (v == "" || v[|v| - 1] != '\r')
    ensures CutLine(v + "\n") == v
  {
    var line := v + "\n";
    assert line[|v|] == '\n';
    assert Find(line, '\n', 0) == |v|;
    assert line[..|v|] == v;
  }

  // A value is read back from its text if it is safe, and not at all otherwise.
  lemma ParseText(stype: SymbolType, value: Reading)
    requires OnOneLine(stype, value) && value != Tri(NO) && (if value.Tri? then LogicalType(stype) else TextType(stype))
    ensures ParseValue(stype, ValueText(stype, value)) == if Safe(stype, value) then Some(value) else None
  {
    if value.Text? && stype == TString {
      QuotedKeeps(value.text);
      UnquotedEscaped(value.text, "\"");
      assert Quoted(value.text)[1..] == Escaped(value.text) + "\"";
    }
  }

  lemma QuotedKeeps(s: string)
    requires '\n' !in Quoted(s)
    ensures '\n' !in s
  {
    if '\n' in s {
      EscapedHas(s, '\n');
    }
  }

  lemma {:induction false} EscapedHas(s: string, c: char)
    requires c in s
    ensures c in Escaped(s)
  {
    if c != s[0] {
      EscapedHas(s[1..], c);
    }
  }

  lemma ParsePrintedUnset(types: Types, name: string)
    requires NameLike(name) && name in types && LogicalType(types[name])
    ensures ParseLine(types, "# " + PREFIX + name + " " + UNSET + "\n") == Some(Assignment(name, Tri(NO)))
  {
    var line := "# " + PREFIX + name + " " + UNSET + "\n";
    var from := 2 + |PREFIX|;
    var k := from + |name|;
    assert line[2..from] == PREFIX && line[from..k] == name && line[k] == ' ' && line[k + 1..k + 1 + |UNSET|] == UNSET;
    assert forall i :: from <= i < k ==> line[i] == name[i - from];
    assert Find(line, ' ', from) == k;
  }

  // The parts of the line of a setting.
  lemma SettingLine(name: string, v: string)
    requires NameLike(name)
    ensures var line, k := PREFIX + name + "=" + v + "\n", |PREFIX| + |name|;
            && StartsWith(line, 0, PREFIX) && line[0] != '#' && k < |line| && Find(line, '=', |PREFIX|) == k
            && line[|PREFIX|..k] == name && line[k + 1..] == v + "\n"
  {
    var line, k := PREFIX + name + "=" + v + "\n", |PREFIX| + |name|;
    assert line[0..|PREFIX|] == PREFIX && line[|PREFIX|..k] == name && line[k] == '=' && line[k + 1..] == v + "\n";
    assert forall i :: |PREFIX| <= i < k ==> line[i] == name[i - |PREFIX|];
    assert line[0] == PREFIX[0];
  }

  lemma ParsePrintedValue(types: Types, name: string, v: string)
    requires NameLike(name) && name in types && '\n' !in v && (v == "" || v[|v| - 1] != '\r')
    ensures var value := ParseValue(types[name], v);
            ParseLine(types, PREFIX + name + "=" + v + "\n")
            == if value.None? then None else Some(Assignment(name, value.value))
  {
    SettingLine(name, v);
    CutAtEnd(v);
  }

  /** Every value of a boolean or tristate symbol is read, also `n`, which is never written so; `m` is not
      read for a boolean. */
  lemma PlainValuesAreRead(types: Types, name: string)
    requires NameLike(name) && name in types && LogicalType(types[name])
    ensures ParseLine(types, PREFIX + name + "=" + "y" + "\n") == Some(Assignment(name, Tri(YES)))
    ensures ParseLine(types, PREFIX + name + "=" + "n" + "\n") == Some(Assignment(name, Tri(NO)))
    ensures ParseLine(types, PREFIX + name + "=" + "m" + "\n")
            == if types[name] == TTristate then Some(Assignment(name, Tri(MOD))) else None
  {
    ParsePrintedValue(types, name, "y");
    ParsePrintedValue(types, name, "n");
    ParsePrintedValue(types, name, "m");
  }

  /** The lines as they stand in the file. */
  lemma LinesAreWritten(name: string, stype: SymbolType, number: string)
    ensures Print(Setting(name, stype, Tri(YES))) == "CONFIG_" + name + "=y\n"
    ensures Print(Setting(name, stype, Tri(MOD))) == "CONFIG_" + name + "=m\n"
    ensures Print(Setting(name, stype, Tri(NO))) == "# CONFIG_" + name + " is not set\n"
    ensures stype != TString ==> Print(Setting(name, stype, Text(number))) == "CONFIG_" + name + "=" + number + "\n"
  {
    assert PREFIX + name + "=" + "y" + "\n" == "CONFIG_" + name + "=y\n";
    assert PREFIX + name + "=" + "m" + "\n" == "CONFIG_" + name + "=m\n";
    assert "# " + PREFIX + name + " " + UNSET + "\n" == "# CONFIG_" + name + " is not set\n";
  }

  lemma TitleStarts(text: string)
    requires '\n' !in text && StartsWith(Seen("# " + text + "\n"), 2, PREFIX)
    ensures StartsWith(text, 0, PREFIX)
  {
    var line, t := "# " + text + "\n", text + "\n";
    assert line[2..] == t && Seen(line)[2..] == CString(t);
    assert forall i :: 0 <= i < |PREFIX| ==> Seen(line)[2 + i] == PREFIX[i] by {
      assert forall i :: 0 <= i < |PREFIX| ==> Seen(line)[2..2 + |PREFIX|][i] == PREFIX[i];
    }
    assert forall i :: 0 <= i < |PREFIX| ==> t[i] == PREFIX[i];
    assert t[|text|] == '\n' && forall i :: 0 <= i < |PREFIX| ==> PREFIX[i] != '\n';
    assert text[0..|PREFIX|] == PREFIX;
  }

  /** A title that does not begin like a setting is quiet. */
  lemma PlainTitleIsQuiet(types: Types, text: string)
    requires '\n' !in text && !StartsWith(text, 0, PREFIX)
    ensures Quiet(types, Print(Note(text)))
  {
    var line := "# " + text + "\n";
    if StartsWith(Seen(line), 2, PREFIX) {
      TitleStarts(text);
      assert false;
    }
    LineOf("# " + text);
    ReadOneLine(types, map[], line, "");
    assert line + "" == line;
  }

  /** But one that does may be read as a setting. */
  lemma TitleIsRead(types: Types, values: Values, name: string)
    requires NameLike(name) && '\0' !in name && name in types && LogicalType(types[name])
    ensures ReadAll(types, values, Print(Note(PREFIX + name + " " + UNSET))) == values[name := Tri(NO)]
  {
    var item := Setting(name, types[name], Tri(NO));
    assert Print(Note(PREFIX + name + " " + UNSET)) == Print(item) + "";
    PrintedSettingIsRead(types, values, item, "");
  }

  // Text without a line end, and a line end.
  lemma LineOf(body: string)
    requires '\n' !in body
    ensures IsLine(body + "\n")
  {}

  lemma ParsePrintedSetting(types: Types, name: string, stype: SymbolType, value: Reading)
    requires WellMade(types, Setting(name, stype, value)) && OnOneLine(stype, value) && value != Tri(NO)
    ensures var line := PREFIX + name + "=" + ValueText(stype, value) + "\n";
            IsLine(line) && ParseLine(types, line) == if Safe(stype, value) then Some(Assignment(name, value)) else None
  {
    ParseText(stype, value);
    ParsePrintedValue(types, name, ValueText(stype, value));
    LineOf(PREFIX + name + "=" + ValueText(stype, value));
  }

  predicate OneLine(item: Item) {
    item.Setting? ==> OnOneLine(item.stype, item.value)
  }

  // Nothing printed for a setting ends its text early.
  lemma PrintedIsWhole(types: Types, item: Item)
    requires WellMade(types, item) && item.Setting?
    ensures '\0' !in Print(item)
  {
    if item.value.Text? && item.stype == TString && '\0' in Escaped(item.value.text) {
      EscapedFrom(item.value.text, '\0');
    }
  }

  // A setting is a line, and the line is read as the setting if that is safe.
  lemma ParsePrinted(types: Types, item: Item)
    requires WellMade(types, item) && OneLine(item) && item.Setting?
    ensures IsLine(Print(item)) && Seen(Print(item)) == Print(item)
    ensures ParseLine(types, Print(item)) == if SafeItem(item) then Some(Assignment(item.name, item.value)) else None
  {
    if item.value == Tri(NO) {
      ParsePrintedUnset(types, item.name);
      LineOf("# " + PREFIX + item.name + " " + UNSET);
    } else {
      ParsePrintedSetting(types, item.name, item.stype, item.value);
    }
    PrintedIsWhole(types, item);
    SeenWhole(Print(item));
  }

  // Nothing is read from the other items.
  lemma OthersAreQuiet(types: Types, item: Item)
    requires WellMade(types, item) && !item.Setting?
    ensures Print(item)[|Print(item)| - 1] == '\n' && Quiet(types, Print(item))
  {
    if !item.Note? {
      var line := Print(item);
      ReadOneLine(types, map[], line, "");
      assert line + "" == line;
    }
  }

  lemma PrintedSettingIsRead(types: Types, values: Values, item: Item, rest: string)
    requires WellMade(types, item) && OneLine(item) && item.Setting?
    ensures ReadAll(types, values, Print(item) + rest)
            == ReadAll(types, if SafeItem(item) then After(values, item) else values, rest)
  {
    ParsePrinted(types, item);
    ReadOneLine(types, values, Print(item), rest);
  }

  lemma QuietKeeps(types: Types, values: Values, text: string)
    requires Quiet(types, text)
    ensures ReadAll(types, values, text) == values
  {
    ReadOnTop(types, values, text);
    assert values + map[] == values;
  }

  lemma QuietIsSkipped(types: Types, values: Values, text: string, rest: string)
    requires Quiet(types, text) && (text == "" || text[|text| - 1] == '\n')
    ensures ReadAll(types, values, text + rest) == ReadAll(types, values, rest)
  {
    ReadFirst(types, values, text, rest);
    QuietKeeps(types, values, text);
  }

  // What one item adds.
  lemma PrintedIsRead(types: Types, values: Values, item: Item, rest: string)
    requires WellMade(types, item) && OneLine(item)
    ensures ReadAll(types, values, Print(item) + rest)
            == ReadAll(types, if SafeItem(item) then After(values, item) else values, rest)
  {
    if item.Setting? {
      PrintedSettingIsRead(types, values, item, rest);
    } else {
      OthersAreQuiet(types, item);
      QuietIsSkipped(types, values, Print(item), rest);
    }
  }

  // The safe settings in a list.
  function SafeOf(values: Values, items: seq<Item>): Values
    decreases |items|
  {
    if items == [] then values
    else SafeOf(if SafeItem(items[0]) then After(values, items[0]) else values, items[1..])
  }

  /** Of settings that stay on their lines, the safe ones are read. */
  lemma {:induction false} SafeIsRead(types: Types, values: Values, items: seq<Item>)
    requires forall i :: 0 <= i < |items| ==> WellMade(types, items[i]) && OneLine(items[i])
    ensures ReadAll(types, values, Written(items)) == SafeOf(values, items)
    decreases |items|
  {
    if items != [] {
      PrintedIsRead(types, values, items[0], Written(items[1..]));
      SafeIsRead(types, if SafeItem(items[0]) then After(values, items[0]) else values, items[1..]);
    }
  }

  lemma {:induction false} AllAreSafe(values: Values, items: seq<Item>)
    requires forall i :: 0 <= i < |items| ==> SafeItem(items[i])
    ensures SafeOf(values, items) == ValuesOf(values, items)
    ensures forall i :: 0 <= i < |items| ==> OneLine(items[i])
    decreases |items|
  {
    if items != [] {
      if items[0].Setting? {
        SafeText(items[0].stype, items[0].value);
      }
      AllAreSafe(After(values, items[0]), items[1..]);
    }
  }

  // ----- what is not safe is not read -----

  ghost predicate AllSafe(types: Types, values: Values) {
    forall n :: n in values ==> n in types && Safe(types[n], values[n])
  }

  lemma CutHasNoEnd(v: string)
    requires forall i :: 0 <= i < |v| - 1 ==> v[i] != '\n'
    ensures '\n' !in CutLine(v)
  {}

  lemma ParsedIsSafe(stype: SymbolType, p: string)
    requires '\n' !in p && ParseValue(stype, p).Some?
    ensures Safe(stype, ParseValue(stype, p).value)
  {
    if stype == TString {
      var s := Unquoted(p[1..]).value;
      if '\n' in s {
        UnquotedFrom(p[1..], '\n');
      }
    }
  }

  lemma ParsedLineIsSafe(types: Types, text: string)
    requires ParseLine(types, Seen(FirstLine(text))).Some?
    ensures var a := ParseLine(types, Seen(FirstLine(text))).value; a.name in types && Safe(types[a.name], a.value)
  {
    var line := Seen(FirstLine(text));
    if line[0] != '#' {
      var k := Find(line, '=', |PREFIX|);
      CutHasNoEnd(line[k + 1..]);
      ParsedIsSafe(types[line[|PREFIX|..k]], CutLine(line[k + 1..]));
    }
  }

  /** Whatever is in the file, only safe values are read. */
  lemma {:induction false} ReadIsSafe(types: Types, values: Values, text: string)
    requires AllSafe(types, values)
    ensures AllSafe(types, ReadAll(types, values, text))
    decreases |text|
  {
    if text != "" {
      var line := FirstLine(text);
      var a := ParseLine(types, Seen(line));
      if a.Some? {
        ParsedLineIsSafe(types, text);
      }
      ReadIsSafe(types, Set(values, a), text[|line|..]);
    }
  }

  predicate DistinctNames(items: seq<Item>) {
    forall i, j :: 0 <= i < j < |items| && items[i].Setting? && items[j].Setting? ==> items[i].name != items[j].name
  }

  lemma {:induction false} ValuesKept(values: Values, items: seq<Item>, n: string)
    requires n in values && forall j :: 0 <= j < |items| && items[j].Setting? ==> items[j].name != n
    ensures n in ValuesOf(values, items) && ValuesOf(values, items)[n] == values[n]
    decreases |items|
  {
    if items != [] {
      ValuesKept(After(values, items[0]), items[1..], n);
    }
  }

  lemma {:induction false} ValuesHave(values: Values, items: seq<Item>, i: nat)
    requires DistinctNames(items) && i < |items| && items[i].Setting?
    ensures items[i].name in ValuesOf(values, items) && ValuesOf(values, items)[items[i].name] == items[i].value
    decreases |items|
  {
    if i == 0 {
      ValuesKept(After(values, items[0]), items[1..], items[0].name);
    } else {
      ValuesHave(After(values, items[0]), items[1..], i - 1);
    }
  }

  // A safe setting is among the safe ones, and one that is not safe leaves its name alone.
  lemma {:induction false} SafeHave(values: Values, items: seq<Item>, i: nat)
    requires DistinctNames(items) && i < |items| && items[i].Setting? && items[i].name !in values
    ensures var n, all := items[i].name, SafeOf(values, items);
            if SafeItem(items[i]) then n in all && all[n] == items[i].value else n !in all
    decreases |items|
  {
    var next := if SafeItem(items[0]) then After(values, items[0]) else values;
    if i == 0 {
      SafeKept(next, items[1..], items[0].name);
    } else {
      SafeHave(next, items[1..], i - 1);
    }
  }

  lemma {:induction false} SafeKept(values: Values, items: seq<Item>, n: string)
    requires forall j :: 0 <= j < |items| && items[j].Setting? ==> items[j].name != n
    ensures var all := SafeOf(values, items); if n in values then n in all && all[n] == values[n] else n !in all
    decreases |items|
  {
    if items != [] {
      SafeKept(if SafeItem(items[0]) then After(values, items[0]) else values, items[1..], n);
    }
  }

  /** The settings of a file are read back exactly if and only if every one of them is safe. */
  lemma FileRoundTrip(types: Types, items: seq<Item>)
    requires DistinctNames(items) && forall i :: 0 <= i < |items| ==> WellMade(types, items[i])
    ensures ReadAll(types, map[], Written(items)) == ValuesOf(map[], items)
            <==> forall i :: 0 <= i < |items| ==> SafeItem(items[i])
  {
    if forall i :: 0 <= i < |items| ==> SafeItem(items[i]) {
      AllAreSafe(map[], items);
      SafeIsRead(types, map[], items);
    } else {
      var i :| 0 <= i < |items| && !SafeItem(items[i]);
      ValuesHave(map[], items, i);
      ReadIsSafe(types, map[], Written(items));
    }
  }

  // ----- the program -----

  /** The text of a value: strings are quoted, the rest is as it is. */
  method WriteSymbol(name: string, stype: SymbolType, value: Reading) returns (text: string)
    requires Fits(stype, value)
    ensures text == Print(Setting(name, stype, value))
  {
    var str := if value.Tri? then TriText(value.tri) else value.text;
    if stype == TString {
      var size;
      str, size := EscapeStringValue(str);
    }
    if LogicalType(stype) && str[0] == 'n' {
      text := "# " + PREFIX + name + " " + UNSET + "\n";
    } else {
      text := PREFIX + name + "=" + str + "\n";
    }
  }

  /** Writes all items, one line each. */
  method WriteConfig(items: seq<Item>) returns (text: string)
    requires forall i :: 0 <= i < |items| && items[i].Setting? ==> Fits(items[i].stype, items[i].value)
    ensures text == Written(items)
  {
    text := "";
    assert items[0..] == items;
    for i := 0 to |items|
      invariant text + Written(items[i..]) == Written(items)
    {
      var line := Print(items[i]);
      if items[i].Setting? {
        line := WriteSymbol(items[i].name, items[i].stype, items[i].value);
      }
      assert items[i..][1..] == items[i + 1..];
      RegroupText(text, line, Written(items[i + 1..]));
      text := text + line;
    }
    assert text + "" == text;
  }

  /** Sets a value from a text, or warns that it is invalid. */
  method SetSymVal(stype: SymbolType, p: string) returns (r: Option<Reading>)
    requires '\0' !in p
    ensures r == ParseValue(stype, p)
  {
    match stype
    case TTristate =>
      if CharAt(p, 0) == 'm' {
        return Some(Tri(MOD));
      }
      r := SetYesNo(p);
    case TBoolean =>
      r := SetYesNo(p);
    case TString =>
      if CharAt(p, 0) != '"' {
        return None;
      }
      var s := Unquote(p[1..]);
      r := if s.None? then None else Some(Text(s.value));
    case TInt =>
      var ok := StringValid(stype, p);
      r := if ok then Some(Text(p)) else None;
    case THex =>
      var ok := StringValid(stype, p);
      r := if ok then Some(Text(p)) else None;
    case _ =>
      r := None;
  }

  method SetYesNo(p: string) returns (r: Option<Reading>)
    ensures r == ParseYesNo(p)
  {
    if CharAt(p, 0) == 'y' {
      return Some(Tri(YES));
    }
    if CharAt(p, 0) == 'n' {
      return Some(Tri(NO));
    }
    r := None;
  }

  // The first place of a character, or the end.
  method StrChr(s: string, c: char, from: nat) returns (k: nat)
    requires from <= |s|
    ensures k == Find(s, c, from)
  {
    k := from;
    while k < |s| && s[k] != c
      invariant from <= k <= |s| && Find(s, c, k) == Find(s, c, from)
    {
      k := k + 1;
    }
  }

  // Reads characters up to the end of a line or of the file.
  method GetLine(text: string, from: nat) returns (line: string)
    requires from <= |text|
    ensures line == FirstLine(text[from..])
  {
    line := "";
    var i := from;
    while i < |text|
      invariant from <= i <= |text| && line == text[from..i] && '\n' !in line
    {
      line := line + [text[i]];
      i := i + 1;
      if line[|line| - 1] == '\n' {
        break;
      }
    }
    LineFound(text[from..], |line|);
  }

  lemma LineFound(text: string, n: nat)
    requires n <= |text| && (forall i :: 0 <= i < n - 1 ==> text[i] != '\n')
    requires if n > 0 && text[n - 1] == '\n' then true else n == |text|
    ensures FirstLine(text) == text[..n]
  {
    var k := Find(text, '\n', 0);
    assert k == if n > 0 && text[n - 1] == '\n' then n - 1 else n;
  }

  method CutValue(v: string) returns (p: string)
    ensures p == CutLine(v)
  {
    p := v;
    var p2 := StrChr(p, '\n', 0);
    if p2 < |p| {
      p := p[..p2];
      if p2 > 0 && p[p2 - 1] == '\r' {
        p := p[..p2 - 1];
      }
    }
  }

  method ReadUnset(types: Types, line: string) returns (a: Option<Assignment>)
    ensures a == ParseUnset(types, line)
  {
    if !StartsWith(line, 2, PREFIX) {
      return None;
    }
    var from := 2 + |PREFIX|;
    var p := StrChr(line, ' ', from);
    if p == |line| || !StartsWith(line, p + 1, UNSET) {
      return None;
    }
    var name := line[from..p];
    a := if name in types && LogicalType(types[name]) then Some(Assignment(name, Tri(NO))) else None;
  }

  method ReadSetting(types: Types, line: string) returns (a: Option<Assignment>)
    requires StartsWith(line, 0, PREFIX) && '\0' !in line
    ensures a == ParseSetting(types, line)
  {
    var p := StrChr(line, '=', |PREFIX|);
    if p == |line| {
      return None;
    }
    var name := line[|PREFIX|..p];
    var value := CutValue(line[p + 1..]);
    if name !in types {
      return None;
    }
    var v := SetSymVal(types[name], value);
    a := if v.None? then None else Some(Assignment(name, v.value));
  }

  // The functions of the library see a line up to its first zero; the reader starts anew behind a `#`.
  method SeenPart(line: string) returns (text: string)
    ensures text == Seen(line)
  {
    var from := if |line| >= 2 && line[0] == '#' then 2 else 0;
    var k := StrChr(line[from..], '\0', 0);
    text := line[..from] + line[from..from + k];
  }

  /** One line: a symbol that is not set, a symbol with a value, or nothing. */
  method ReadLine(types: Types, line: string) returns (a: Option<Assignment>)
    ensures a == ParseLine(types, Seen(line))
  {
    var text := SeenPart(line);
    if CharAt(text, 0) == '#' {
      a := ReadUnset(types, text);
    } else if StartsWith(text, 0, PREFIX) {
      SettingIsWhole(line);
      a := ReadSetting(types, text);
    } else {
      a := None;
    }
  }

  lemma SettingIsWhole(line: string)
    requires StartsWith(Seen(line), 0, PREFIX)
    ensures '\0' !in Seen(line)
  {
    assert Seen(line)[0] == PREFIX[0];
  }

  lemma ReadStep(types: Types, values: Values, text: string, line: string, next: Values, rest: string)
    requires text != "" && line == FirstLine(text) && rest == text[|line|..]
    requires next == Set(values, ParseLine(types, Seen(line)))
    ensures ReadAll(types, values, text) == ReadAll(types, next, rest)
  {}

  lemma DropTwice(text: string, i: nat, n: nat)
    requires i + n <= |text|
    ensures text[i..][n..] == text[i + n..]
  {}

  lemma ReadNext(types: Types, values: Values, text: string, i: nat, line: string, next: Values, end: nat)
    requires i < |text| && line == FirstLine(text[i..]) && end == i + |line|
    requires next == Set(values, ParseLine(types, Seen(line)))
    ensures i < end <= |text| && ReadAll(types, next, text[end..]) == ReadAll(types, values, text[i..])
  {
    DropTwice(text, i, |line|);
    ReadStep(types, values, text[i..], line, next, text[end..]);
  }

  /** Reads a file into settings that start out empty. */
  method ReadSimple(types: Types, text: string) returns (values: Values)
    ensures values == ReadAll(types, map[], text)
  {
    values := map[];
    var i := 0;
    assert text[0..] == text;
    ghost var all := ReadAll(types, map[], text);
    while i < |text|
      invariant i <= |text| && ReadAll(types, values, text[i..]) == all
    {
      values, i := ReadOne(types, values, text, i);
    }
  }

  method ReadOne(types: Types, values: Values, text: string, i: nat) returns (next: Values, end: nat)
    requires i < |text|
    ensures i < end <= |text| && ReadAll(types, next, text[end..]) == ReadAll(types, values, text[i..])
  {
    var line := GetLine(text, i);
    var a := ReadLine(types, line);
    next := Set(values, a);
    end := i + |line|;
    ReadNext(types, values, text, i, line, next, end);
  }

  // ----- the exact forms -----

  /** A value ends before the end of its line, however that is marked, or with the text. */
  lemma CutForms(v: string, rest: string)
    requires '\n' !in v
    ensures CutLine(v) == v && CutLine(v + "\r\n" + rest) == v
    ensures (v == "" || v[|v| - 1] != '\r') ==> CutLine(v + "\n" + rest) == v
  {
    assert Find(v, '\n', 0) == |v|;
    FoundAt(v + "\r", rest);
    FoundAt(v, rest);
    assert v + "\r\n" + rest == v + "\r" + "\n" + rest;
  }

  lemma FoundAt(v: string, rest: string)
    requires '\n' !in v
    ensures Find(v + "\n" + rest, '\n', 0) == |v|
  {
    var t := v + "\n" + rest;
    assert t[|v|] == '\n' && forall i :: 0 <= i < |v| ==> t[i] == v[i];
  }

  // A text that starts with two parts.
  lemma StartsWithBoth(line: string, from: nat, a: string, b: string)
    requires StartsWith(line, from, a + b)
    ensures StartsWith(line, from, a) && StartsWith(line, from + |a|, b)
  {
    var part := line[from..from + |a + b|];
    assert part == a + b && part[..|a|] == a && part[|a|..] == b;
    assert line[from..from + |a|] == part[..|a|] && line[from + |a|..from + |a| + |b|] == part[|a|..];
  }

  lemma FoundBehind(line: string, from: nat, name: string)
    requires StartsWith(line, from, name) && ' ' !in name && from + |name| < |line| && line[from + |name|] == ' '
    ensures Find(line, ' ', from) == from + |name|
  {
    var part := line[from..from + |name|];
    assert forall i :: from <= i < from + |name| ==> line[i] == part[i - from];
  }

  // The parts of the line that unsets a symbol.
  lemma UnsetParts(line: string, name: string)
    requires StartsWith(line, 2, PREFIX + name + " " + UNSET) && ' ' !in name
    ensures var from := 2 + |PREFIX|;
            && StartsWith(line, 2, PREFIX) && from + |name| < |line| && Find(line, ' ', from) == from + |name|
            && line[from..from + |name|] == name && StartsWith(line, from + |name| + 1, UNSET)
  {
    var from := 2 + |PREFIX|;
    StartsWithBoth(line, 2, PREFIX + name + " ", UNSET);
    StartsWithBoth(line, 2, PREFIX + name, " ");
    StartsWithBoth(line, 2, PREFIX, name);
    assert line[from + |name|..from + |name| + 1][0] == ' ';
    FoundBehind(line, from, name);
  }

  lemma UnsetWhole(line: string, k: nat)
    requires StartsWith(line, 2, PREFIX) && 2 + |PREFIX| <= k < |line| && line[k] == ' '
    requires StartsWith(line, k + 1, UNSET)
    ensures StartsWith(line, 2, PREFIX + line[2 + |PREFIX|..k] + " " + UNSET)
  {
    var from := 2 + |PREFIX|;
    assert line[2..k + 1 + |UNSET|] == line[2..from] + line[from..k] + [line[k]] + line[k + 1..k + 1 + |UNSET|];
  }

  /** A line that begins with `#` unsets a symbol just when it has the form in which that is written. */
  lemma UnsetExactly(types: Types, line: string, a: Assignment)
    requires line != "" && line[0] == '#'
    ensures ParseLine(types, line) == Some(a) <==>
            && a.value == Tri(NO) && ' ' !in a.name && a.name in types && LogicalType(types[a.name])
            && StartsWith(line, 2, PREFIX + a.name + " " + UNSET)
  {
    if ParseLine(types, line) == Some(a) {
      UnsetWhole(line, Find(line, ' ', 2 + |PREFIX|));
    } else if ' ' !in a.name && StartsWith(line, 2, PREFIX + a.name + " " + UNSET) {
      UnsetParts(line, a.name);
    }
  }

  /** A line is seen up to the zero that ends it; behind a `#` the zero may be the next character. */
  lemma SeenForms(line: string, c: char, t: string)
    ensures line != "" && line[0] != '#' ==>
              '\0' !in Seen(line) && Seen(line) <= line && (Seen(line) == line || line[|Seen(line)|] == '\0')
    ensures Seen("#" + [c] + t) == "#" + [c] + CString(t)
  {
    var s := "#" + [c] + t;
    assert s[..2] == "#" + [c] && s[2..] == t;
  }
}
