/**
 * The persisted settings: what `Load` reads from the application's registry
 * key and what `Save` writes back. The registry key is a map from value
 * names to typed values plus the value names of its "Pinned" sub-key; the
 * registry calls, their failures and the dialogs are not modelled.
 *
 * Durations are whole seconds and window coordinates whole numbers, both as
 * 32-bit values, which is what the stored DWORDs and the formatted position
 * carry.
 */
module SettingsStore {
  import opened Wrappers
  import opened FixedWidth
  import opened Decimal
  import opened Text

  // ----- window state -----

  datatype WindowState = Normal | Minimized | Maximized

  /** `WindowState.ToString()`. */
  function StateName(st: WindowState): (name: string)
    ensures EqualsIgnoreCase(name, "Normal") <==> st == Normal
    ensures EqualsIgnoreCase(name, "Minimized") <==> st == Minimized
    ensures EqualsIgnoreCase(name, "Maximized") <==> st == Maximized
  {
    assert AsciiUpper("Maximized"[1]) != AsciiUpper("Minimized"[1]);
    match st
    case Normal => "Normal"
    case Minimized => "Minimized"
    case Maximized => "Maximized"
  }

  /** Upper case for ASCII letters; every other character is its own upper case here. */
  function AsciiUpper(c: char): char {
    if 'a' <= c <= 'z' then (c as int - 32) as char else c
  }

  /** Equality ignoring the case of ASCII letters. */
  predicate EqualsIgnoreCase(a: string, b: string) {
    |a| == |b| && forall i :: 0 <= i < |a| ==> AsciiUpper(a[i]) == AsciiUpper(b[i])
  }

  /** `Enum.TryParse<WindowState>(text, ignoreCase: true)` on the member names. */
  function ParseWindowState(text: string): (r: Option<WindowState>)
    ensures r.Some? ==> EqualsIgnoreCase(text, StateName(r.value))
    ensures r.None? ==> forall st :: !EqualsIgnoreCase(text, StateName(st))
  {
    if EqualsIgnoreCase(text, "Normal") then Some(Normal)
    else if EqualsIgnoreCase(text, "Minimized") then Some(Minimized)
    else if EqualsIgnoreCase(text, "Maximized") then Some(Maximized)
    else None
  }

  /** A stored state name reads back as the same state. */
  lemma WindowStateRoundTrip(st: WindowState)
    ensures ParseWindowState(StateName(st)) == Some(st)
  {
    match st
    case Normal =>
      assert EqualsIgnoreCase("Normal", "Normal");
    case Minimized =>
      assert EqualsIgnoreCase("Minimized", "Minimized");
    case Maximized =>
      assert AsciiUpper("Maximized"[1]) != AsciiUpper("Minimized"[1]);
      assert EqualsIgnoreCase("Maximized", "Maximized");
  }

  // ----- window position -----

  datatype Rect = Rect(left: int32, top: int32, width: int32, height: int32)

  /** `default(Rect)`: the position before anything is loaded. */
  const EmptyRect: Rect := Rect(0, 0, 0, 0)

  /** What a loaded position satisfies: an origin the pattern can express and a positive size. */
  predicate PositionLoadable(r: Rect) {
    r.left >= 0 && r.top >= 0 && r.width > 0 && r.height > 0
  }

  /** Only digits and white space: the characters the position pattern admits. */
  predicate DigitsOrSpace(text: string) {
    forall i :: 0 <= i < |text| ==> IsDigit(text[i]) || text[i] in WhiteSpace
  }

  lemma DigitIsNotSpace(c: char)
    requires IsDigit(c)
    ensures c !in WhiteSpace
  {
  }

  /**
   * The position pattern, four runs of decimal digits separated by white
   * space with white space allowed around them, matches exactly the texts of
   * digits and white space that split into four fields; each field must then
   * parse as an `int`, and width and height must be positive.
   */
  function ParsePosition(text: string): (r: Option<Rect>)
    ensures r.Some? ==> PositionLoadable(r.value)
    ensures r.Some? ==> DigitsOrSpace(text)
  {
    if !DigitsOrSpace(text) then None
    else
      var f := Split(text, WhiteSpace);
      if |f| != 4 then None
      else
        assert forall k, j :: 0 <= k < 4 && 0 <= j < |f[k]| ==> IsDigit(f[k][j]);
        match (ParseInt32Digits(f[0]), ParseInt32Digits(f[1]), ParseInt32Digits(f[2]), ParseInt32Digits(f[3]))
        case (Some(left), Some(top), Some(width), Some(height)) =>
          if width > 0 && height > 0 then Some(Rect(left, top, width, height)) else None
        case _ => None
  }

  /** The four coordinates, each as `(int)` formats it. */
  function PositionFields(r: Rect): seq<string> {
    [IntToString(r.left as int), IntToString(r.top as int), IntToString(r.width as int), IntToString(r.height as int)]
  }

  /** A coordinate's text, with or without a minus sign, holds no white space. */
  lemma IntTextHasNoSpace(i: int)
    ensures NoneIn(IntToString(i), WhiteSpace)
  {
    var t := IntToString(i);
    forall j | 0 <= j < |t| ensures t[j] !in WhiteSpace {
      if i < 0 && j > 0 {
        assert t[j] == t[1..][j - 1];
      }
    }
  }

  /** The stored text: the four coordinates separated by single spaces, which split back into the four fields. */
  function FormatPosition(r: Rect): (text: string)
    ensures Split(text, WhiteSpace) == PositionFields(r)
  {
    var f := PositionFields(r);
    IntTextHasNoSpace(r.left as int);
    IntTextHasNoSpace(r.top as int);
    IntTextHasNoSpace(r.width as int);
    IntTextHasNoSpace(r.height as int);
    SplitJoin(f, WhiteSpace, ' ');
    Join(f, " ")
  }

  /** Non-negative coordinates are saved as digits and spaces only. */
  lemma PositionDigitsOrSpace(r: Rect)
    requires r.left >= 0 && r.top >= 0 && r.width >= 0 && r.height >= 0
    ensures DigitsOrSpace(FormatPosition(r))
  {
    var f := PositionFields(r);
    var text := FormatPosition(r);
    assert text == Join(f, " ");
    forall i | 0 <= i < |text| ensures IsDigit(text[i]) || text[i] in WhiteSpace {
      JoinChars(f, " ", text[i]);
    }
  }

  /** A position with no negative coordinate is saved as digits and spaces that split back into its four fields. */
  lemma PositionTextFields(r: Rect)
    requires r.left >= 0 && r.top >= 0 && r.width >= 0 && r.height >= 0
    ensures DigitsOrSpace(FormatPosition(r))
    ensures Split(FormatPosition(r), WhiteSpace) == PositionFields(r)
    ensures ParseInt32Digits(PositionFields(r)[0]) == Some(r.left)
    ensures ParseInt32Digits(PositionFields(r)[1]) == Some(r.top)
    ensures ParseInt32Digits(PositionFields(r)[2]) == Some(r.width)
    ensures ParseInt32Digits(PositionFields(r)[3]) == Some(r.height)
  {
    PositionDigitsOrSpace(r);
    Int32TextRoundTrip(r.left);
    Int32TextRoundTrip(r.top);
    Int32TextRoundTrip(r.width);
    Int32TextRoundTrip(r.height);
  }

  /** A loadable position reads back unchanged. */
  lemma PositionRoundTrip(r: Rect)
    requires PositionLoadable(r)
    ensures ParsePosition(FormatPosition(r)) == Some(r)
  {
    PositionTextFields(r);
  }

  /** A window left of or above the primary screen is saved with a minus sign, which the pattern refuses. */
  lemma NegativeOriginNotReloaded(r: Rect)
    requires r.left < 0
    ensures ParsePosition(FormatPosition(r)).None?
  {
    var text := FormatPosition(r);
    assert text[0] == '-';
  }

  // ----- column widths -----

  /** The characters `Columns` is split on. */
  const ColumnSeparators: set<char> := {' ', '\t'}

  /** The word class `\w`, restricted to ASCII. */
  predicate IsWordChar(c: char) {
    'a' <= c <= 'z' || 'A' <= c <= 'Z' || '0' <= c <= '9' || c == '_'
  }

  /** One or more word characters. */
  predicate IsWord(s: string) {
    |s| > 0 && forall i :: 0 <= i < |s| ==> IsWordChar(s[i])
  }

  /** The position of the first `c` in `s`, or `|s|` when there is none. */
  function IndexOf(s: string, c: char): (i: nat)
    ensures i <= |s|
    ensures forall j :: 0 <= j < i ==> s[j] != c
    ensures i < |s| ==> s[i] == c
  {
    if |s| == 0 || s[0] == c then 0 else 1 + IndexOf(s[1..], c)
  }

  /**
   * One token against `^(\w+)=(\d+)$`, whose `$` also matches before a
   * final line feed, followed by `int.TryParse` of the digits.
   */
  function ParseColumnSpec(t: string): (r: Option<(string, int32)>)
    ensures r.Some? ==> IsWord(r.value.0) && r.value.1 >= 0
  {
    ParseColumnBody(DropFinalLineFeed(t))
  }

  /** The part of a token that `^...$` matches against: without one final line feed. */
  function DropFinalLineFeed(t: string): string {
    if |t| > 0 && t[|t| - 1] == '\n' then t[..|t| - 1] else t
  }

  /** `(\w+)=(\d+)` against the whole text, then `int.TryParse` of the digits. */
  function ParseColumnBody(body: string): (r: Option<(string, int32)>)
    ensures r.Some? ==> IsWord(r.value.0) && r.value.1 >= 0
  {
    var i := IndexOf(body, '=');
    if i == |body| then None
    else
      var key, digits := body[..i], body[i + 1..];
      if !IsWord(key) || |digits| == 0 || !AllDigits(digits) then None
      else
        match ParseInt32Digits(digits)
        case Some(width) => Some((key, width))
        case None => None
  }

  /** The accepted tokens, in order; the others are skipped. */
  function ColumnEntries(ts: seq<string>): (es: seq<(string, int32)>)
    ensures |es| <= |ts|
    ensures forall i :: 0 <= i < |es| ==> IsWord(es[i].0) && es[i].1 >= 0
  {
    if |ts| == 0 then []
    else
      match ParseColumnSpec(ts[0])
      case Some(e) => [e] + ColumnEntries(ts[1..])
      case None => ColumnEntries(ts[1..])
  }

  /** The stored `Columns` text: blank text yields nothing, otherwise each space- or tab-separated token is tried. */
  function ParseColumns(text: string): (es: seq<(string, int32)>)
    ensures ColumnsLoadable(es)
  {
    if IsBlank(text) then [] else ColumnEntries(Split(text, ColumnSeparators))
  }

  /** What loaded column entries satisfy: word keys and non-negative widths. */
  predicate ColumnsLoadable(es: seq<(string, int32)>) {
    forall i :: 0 <= i < |es| ==> IsWord(es[i].0) && es[i].1 >= 0
  }

  /** `$"{kv.Key}={kv.Value}"`. */
  function ColumnSpecText(e: (string, int32)): string {
    e.0 + "=" + IntToString(e.1 as int)
  }

  function ColumnTexts(es: seq<(string, int32)>): (ts: seq<string>)
    ensures |ts| == |es|
    ensures forall i :: 0 <= i < |es| ==> ts[i] == ColumnSpecText(es[i])
  {
    if |es| == 0 then [] else [ColumnSpecText(es[0])] + ColumnTexts(es[1..])
  }

  /** The entries joined with single spaces, in the dictionary's enumeration order. */
  function FormatColumns(es: seq<(string, int32)>): (text: string)
    ensures text == "" <==> |es| == 0
  {
    Join(ColumnTexts(es), " ")
  }

  /** A key followed by `=` places the first `=` right after the key. */
  lemma FirstEqualsAfterWord(key: string, rest: string)
    requires IsWord(key)
    ensures IndexOf(key + "=" + rest, '=') == |key|
  {
    var s := key + "=" + rest;
    if |key| > 0 {
      assert s[1..] == key[1..] + "=" + rest;
      if |key| > 1 {
        FirstEqualsAfterWord(key[1..], rest);
      } else {
        assert s[1..][0] == '=';
      }
    }
  }

  /** A loadable entry reads back from its own text. */
  lemma ColumnSpecRoundTrip(e: (string, int32))
    requires IsWord(e.0) && e.1 >= 0
    ensures ParseColumnSpec(ColumnSpecText(e)) == Some(e)
  {
    var digits := IntToString(e.1 as int);
    var t := ColumnSpecText(e);
    assert t[|t| - 1] == digits[|digits| - 1];
    FirstEqualsAfterWord(e.0, digits);
    assert t[..|e.0|] == e.0 && t[|e.0| + 1..] == digits;
    Int32TextRoundTrip(e.1);
  }

  /** A negative width is saved with a minus sign, which `\d+` refuses: the entry is dropped on reload. */
  lemma NegativeWidthDropped(key: string, width: int32)
    requires IsWord(key) && width < 0
    ensures ParseColumnSpec(ColumnSpecText((key, width))).None?
  {
    var digits := IntToString(width as int);
    assert digits == "-" + NatToString(-(width as int));
    SignedWidthRejected(key, digits);
  }

  /** After `key=`, a value that starts with a minus sign is not a run of digits, trailing newline or not. */
  lemma SignedWidthRejected(key: string, rest: string)
    requires IsWord(key) && |rest| >= 2 && rest[0] == '-'
    ensures ParseColumnSpec(key + "=" + rest).None?
  {
    var t := key + "=" + rest;
    if rest[|rest| - 1] == '\n' {
      assert DropFinalLineFeed(t) == key + "=" + rest[..|rest| - 1];
      SignedBodyRejected(key, rest[..|rest| - 1]);
    } else {
      SignedBodyRejected(key, rest);
    }
  }

  /** `key=` followed by a minus sign does not match `(\w+)=(\d+)`. */
  lemma SignedBodyRejected(key: string, value: string)
    requires IsWord(key) && |value| >= 1 && value[0] == '-'
    ensures ParseColumnBody(key + "=" + value).None?
  {
    FirstEqualsAfterWord(key, value);
    assert (key + "=" + value)[|key| + 1..] == value;
  }

  lemma {:induction false} ColumnEntriesOfTexts(es: seq<(string, int32)>)
    requires ColumnsLoadable(es)
    ensures ColumnEntries(ColumnTexts(es)) == es
  {
    if |es| > 0 {
      ColumnSpecRoundTrip(es[0]);
      assert ColumnTexts(es)[1..] == ColumnTexts(es[1..]);
      ColumnEntriesOfTexts(es[1..]);
    }
  }

  /** The text of a loadable entry has no separator: word characters, `=` and digits. */
  lemma ColumnSpecHasNoSeparator(e: (string, int32))
    requires IsWord(e.0) && e.1 >= 0
    ensures |ColumnSpecText(e)| > 0 && NoneIn(ColumnSpecText(e), ColumnSeparators)
  {
    var digits := IntToString(e.1 as int);
    var t := ColumnSpecText(e);
    forall i | 0 <= i < |t| ensures t[i] !in ColumnSeparators {
      if i < |e.0| {
        assert t[i] == e.0[i];
      } else if i > |e.0| {
        assert t[i] == digits[i - |e.0| - 1];
      }
    }
  }

  /** The formatted widths split back into the entry texts. */
  lemma FormattedColumnsSplit(es: seq<(string, int32)>)
    requires ColumnsLoadable(es)
    ensures Split(FormatColumns(es), ColumnSeparators) == ColumnTexts(es)
  {
    var ts := ColumnTexts(es);
    forall i | 0 <= i < |ts| ensures |ts[i]| > 0 && NoneIn(ts[i], ColumnSeparators) {
      ColumnSpecHasNoSeparator(es[i]);
    }
    SplitJoin(ts, ColumnSeparators, ' ');
  }

  /** Non-empty formatted widths start with a word character, so they are not blank. */
  lemma FormattedColumnsNotBlank(es: seq<(string, int32)>)
    requires ColumnsLoadable(es) && |es| > 0
    ensures !IsBlank(FormatColumns(es))
  {
    var ts := ColumnTexts(es);
    var text := FormatColumns(es);
    assert text[..|ts[0]|] == ts[0];
    assert text[0] == ts[0][0] == es[0].0[0];
    assert text[0] !in WhiteSpace;
  }

  /** Non-empty loadable column widths read back unchanged, in order. */
  lemma ColumnsRoundTrip(es: seq<(string, int32)>)
    requires ColumnsLoadable(es) && |es| > 0
    ensures ParseColumns(FormatColumns(es)) == es
  {
    FormattedColumnsNotBlank(es);
    FormattedColumnsSplit(es);
    ColumnEntriesOfTexts(es);
  }

  // ----- the settings record and the registry -----

  datatype Settings = Settings(
    highlightDuration: int32,
    refreshInterval: int32,
    startImmediately: bool,
    readAcls: bool,
    windowState: WindowState,
    windowPosition: Rect,
    columnWidths: seq<(string, int32)>,
    pinnedNames: set<string>)

  /** The property initialisers: what a fresh `Settings` holds before `Load`. */
  const Defaults: Settings := Settings(4, 1, true, false, Normal, EmptyRect, [], {})

  datatype RegValue = DWord(dword: int32) | Str(str: string) | OtherKind

  /** The settings key: its values by name, and the value names of its "Pinned" sub-key when that exists. */
  datatype RegKey = RegKey(values: map<string, RegValue>, pinned: Option<set<string>>)

  const HighlightDurationName: string := "Highlight duration"
  const RefreshIntervalName: string := "Refresh interval"
  const StartImmediatelyName: string := "Start immediately"
  const ReadAclsName: string := "Read ACLs"
  const WindowStateName: string := "Window state"
  const WindowPositionName: string := "Window position"
  const ColumnsName: string := "Columns"

  const SettingNames: set<string> := {
    HighlightDurationName, RefreshIntervalName, StartImmediatelyName, ReadAclsName,
    WindowStateName, WindowPositionName, ColumnsName
  }

  /** `GetValue(name, fallback)`: the stored value, or the fallback as a DWORD when there is none. */
  function GetValue(k: RegKey, name: string, fallback: int32): RegValue {
    if name in k.values then k.values[name] else DWord(fallback)
  }

  /** `GetValue(name) is string`. */
  function GetString(k: RegKey, name: string): Option<string> {
    if name in k.values && k.values[name].Str? then Some(k.values[name].str) else None
  }

  /** A stored duration replaces the current one only when it is a non-negative DWORD. */
  function LoadDuration(v: RegValue, current: int32): (d: int32)
    ensures v.DWord? && v.dword >= 0 ==> d == v.dword
    ensures !(v.DWord? && v.dword >= 0) ==> d == current
  {
    if v.DWord? && v.dword >= 0 then v.dword else current
  }

  /** A stored flag is true when the DWORD is non-zero; any other kind leaves the current flag. */
  function LoadFlag(v: RegValue, current: bool): (b: bool)
    ensures v.DWord? ==> (b <==> v.dword != 0)
    ensures !v.DWord? ==> b == current
  {
    if v.DWord? then v.dword != 0 else current
  }

  /** What everything `Load` produces satisfies: what `Save` writes reads back to it. */
  predicate Reloadable(s: Settings) {
    && s.highlightDuration >= 0
    && s.refreshInterval >= 0
    && (s.windowPosition == EmptyRect || (s.windowState == Normal && PositionLoadable(s.windowPosition)))
    && ColumnsLoadable(s.columnWidths)
  }

  /** The stored window state, when it names one. */
  function LoadState(k: RegKey): (st: WindowState)
    ensures GetString(k, WindowStateName).None? ==> st == Defaults.windowState
  {
    match GetString(k, WindowStateName)
    case Some(text) => ParseWindowState(text).GetOr(Defaults.windowState)
    case None => Defaults.windowState
  }

  /** The stored position, read only in the Normal state and only when it parses. */
  function LoadPosition(k: RegKey, state: WindowState): (r: Rect)
    ensures r == EmptyRect || (state == Normal && PositionLoadable(r))
  {
    if state != Normal then Defaults.windowPosition
    else
      match GetString(k, WindowPositionName)
      case Some(text) => ParsePosition(text).GetOr(Defaults.windowPosition)
      case None => Defaults.windowPosition
  }

  /** The stored column widths; a missing or non-string value gives none. */
  function LoadColumns(k: RegKey): (es: seq<(string, int32)>)
    ensures ColumnsLoadable(es)
  {
    match GetString(k, ColumnsName)
    case Some(text) => ParseColumns(text)
    case None => []
  }

  /** `Load`, run by the constructor: `None` is a missing key. */
  function Load(key: Option<RegKey>): (s: Settings)
    ensures key.None? ==> s == Defaults
    ensures Reloadable(s)
    ensures key.Some? ==> s.pinnedNames == key.value.pinned.GetOr({})
    ensures s.windowState != Normal ==> s.windowPosition == EmptyRect
  {
    match key
    case None => Defaults
    case Some(k) =>
      var state := LoadState(k);
      Settings(
        LoadDuration(GetValue(k, HighlightDurationName, 2), Defaults.highlightDuration),
        LoadDuration(GetValue(k, RefreshIntervalName, 3), Defaults.refreshInterval),
        LoadFlag(GetValue(k, StartImmediatelyName, 1), Defaults.startImmediately),
        LoadFlag(GetValue(k, ReadAclsName, 0), Defaults.readAcls),
        state, LoadPosition(k, state), LoadColumns(k),
        k.pinned.GetOr({}))
  }

  /** A flag as `SetValue(..., RegistryValueKind.DWord)` stores it. */
  function FlagDWord(b: bool): (n: int32)
    ensures LoadFlag(DWord(n), !b) == b
  {
    if b then 1 else 0
  }

  /**
   * The pinned-name synchronisation: the stored names to delete and to add,
   * so that the sub-key ends up holding exactly the pinned names while names
   * present in both are left alone.
   */
  function PinnedSync(existing: set<string>, pinned: set<string>): (r: (set<string>, set<string>))
    ensures r.0 <= existing && r.0 !! pinned
    ensures r.1 <= pinned && r.1 !! existing
    ensures (existing - r.0) + r.1 == pinned
  {
    (existing - pinned, pinned - existing)
  }

  /** `Save`: the key after the writes, from the key before them. */
  function Save(s: Settings, k: RegKey): (k': RegKey)
    ensures k'.pinned == Some(s.pinnedNames)
    ensures WindowPositionName in k'.values <==> s.windowState == Normal
    ensures ColumnsName in k'.values <==> |s.columnWidths| > 0
    ensures forall n :: n in k.values && n !in SettingNames ==> n in k'.values && k'.values[n] == k.values[n]
    ensures forall n :: n in k'.values ==> n in k.values || n in SettingNames
  {
    var v := k.values
      [HighlightDurationName := DWord(s.highlightDuration)]
      [RefreshIntervalName := DWord(s.refreshInterval)]
      [StartImmediatelyName := DWord(FlagDWord(s.startImmediately))]
      [ReadAclsName := DWord(FlagDWord(s.readAcls))]
      [WindowStateName := Str(StateName(s.windowState))];
    var v := if s.windowState == Normal then v[WindowPositionName := Str(FormatPosition(s.windowPosition))]
             else v - {WindowPositionName};
    var v := if |s.columnWidths| > 0 then v[ColumnsName := Str(FormatColumns(s.columnWidths))]
             else v - {ColumnsName};
    var existing := k.pinned.GetOr({});
    var sync := PinnedSync(existing, s.pinnedNames);
    RegKey(v, Some((existing - sync.0) + sync.1))
  }

  /** The default position is saved as "0 0 0 0", which the positive-size check refuses: it stays the default. */
  lemma EmptyRectNotParsed()
    ensures ParsePosition(FormatPosition(EmptyRect)).None?
  {
    PositionTextFields(EmptyRect);
  }

  /** The values `Save` writes, as `Load` looks them up. */
  lemma SavedValues(s: Settings, k: RegKey)
    ensures GetValue(Save(s, k), HighlightDurationName, 2) == DWord(s.highlightDuration)
    ensures GetValue(Save(s, k), RefreshIntervalName, 3) == DWord(s.refreshInterval)
    ensures GetValue(Save(s, k), StartImmediatelyName, 1) == DWord(FlagDWord(s.startImmediately))
    ensures GetValue(Save(s, k), ReadAclsName, 0) == DWord(FlagDWord(s.readAcls))
    ensures GetString(Save(s, k), WindowStateName) == Some(StateName(s.windowState))
    ensures s.windowState == Normal ==> GetString(Save(s, k), WindowPositionName) == Some(FormatPosition(s.windowPosition))
    ensures |s.columnWidths| > 0 ==> GetString(Save(s, k), ColumnsName) == Some(FormatColumns(s.columnWidths))
    ensures |s.columnWidths| == 0 ==> GetString(Save(s, k), ColumnsName).None?
  {
    SavedDWords(s, k);
    SavedStrings(s, k);
  }

  /** The four DWord values `Save` writes. */
  lemma SavedDWords(s: Settings, k: RegKey)
    ensures GetValue(Save(s, k), HighlightDurationName, 2) == DWord(s.highlightDuration)
    ensures GetValue(Save(s, k), RefreshIntervalName, 3) == DWord(s.refreshInterval)
    ensures GetValue(Save(s, k), StartImmediatelyName, 1) == DWord(FlagDWord(s.startImmediately))
    ensures GetValue(Save(s, k), ReadAclsName, 0) == DWord(FlagDWord(s.readAcls))
  {
    SavedHighlightDuration(s, k);
    SavedRefreshInterval(s, k);
    SavedStartImmediately(s, k);
    SavedReadAcls(s, k);
  }

  /** The highlight duration `Save` writes is not overwritten or deleted by the later writes. */
  lemma SavedHighlightDuration(s: Settings, k: RegKey)
    ensures GetValue(Save(s, k), HighlightDurationName, 2) == DWord(s.highlightDuration)
  {
    var v := Save(s, k).values;
    assert HighlightDurationName != WindowStateName && HighlightDurationName != WindowPositionName && HighlightDurationName != ColumnsName;
    assert HighlightDurationName in v;
  }

  /** The refresh interval `Save` writes is not overwritten or deleted by the later writes. */
  lemma SavedRefreshInterval(s: Settings, k: RegKey)
    ensures GetValue(Save(s, k), RefreshIntervalName, 3) == DWord(s.refreshInterval)
  {
    var v := Save(s, k).values;
    assert RefreshIntervalName != WindowStateName && RefreshIntervalName != WindowPositionName && RefreshIntervalName != ColumnsName;
    assert RefreshIntervalName in v;
  }

  /** The start-immediately flag `Save` writes is not overwritten or deleted by the later writes. */
  lemma SavedStartImmediately(s: Settings, k: RegKey)
    ensures GetValue(Save(s, k), StartImmediatelyName, 1) == DWord(FlagDWord(s.startImmediately))
  {
    var v := Save(s, k).values;
    assert StartImmediatelyName != WindowStateName && StartImmediatelyName != WindowPositionName && StartImmediatelyName != ColumnsName;
    assert StartImmediatelyName in v;
  }

  /** The read-ACLs flag `Save` writes is not overwritten or deleted by the later writes. */
  lemma SavedReadAcls(s: Settings, k: RegKey)
    ensures GetValue(Save(s, k), ReadAclsName, 0) == DWord(FlagDWord(s.readAcls))
  {
    var v := Save(s, k).values;
    assert ReadAclsName != WindowStateName && ReadAclsName != WindowPositionName && ReadAclsName != ColumnsName;
    assert ReadAclsName in v;
  }

  /** The string values `Save` writes or deletes. */
  lemma SavedStrings(s: Settings, k: RegKey)
    ensures GetString(Save(s, k), WindowStateName) == Some(StateName(s.windowState))
    ensures s.windowState == Normal ==> GetString(Save(s, k), WindowPositionName) == Some(FormatPosition(s.windowPosition))
    ensures |s.columnWidths| > 0 ==> GetString(Save(s, k), ColumnsName) == Some(FormatColumns(s.columnWidths))
    ensures |s.columnWidths| == 0 ==> GetString(Save(s, k), ColumnsName).None?
  {
  }

  /** The saved position reads back, for a reloadable record. */
  lemma SavedPositionReloads(s: Settings, k: RegKey)
    requires Reloadable(s)
    ensures LoadPosition(Save(s, k), s.windowState) == s.windowPosition
  {
    SavedValues(s, k);
    if s.windowState == Normal {
      if s.windowPosition == EmptyRect {
        EmptyRectNotParsed();
      } else {
        PositionRoundTrip(s.windowPosition);
      }
    }
  }

  /** The saved widths read back, for a reloadable record. */
  lemma SavedColumnsReload(s: Settings, k: RegKey)
    requires Reloadable(s)
    ensures LoadColumns(Save(s, k)) == s.columnWidths
  {
    SavedValues(s, k);
    if |s.columnWidths| > 0 {
      ColumnsRoundTrip(s.columnWidths);
    }
  }

  /** Saving and loading again gives back what was saved, for every reloadable record. */
  lemma SaveLoadRoundTrip(s: Settings, k: RegKey)
    requires Reloadable(s)
    ensures Load(Some(Save(s, k))) == s
  {
    var k' := Save(s, k);
    SavedValues(s, k);
    WindowStateRoundTrip(s.windowState);
    assert LoadState(k') == s.windowState;
    SavedPositionReloads(s, k);
    SavedColumnsReload(s, k);
  }

  /** What `Load` produces survives a save and a load unchanged. */
  lemma LoadIsStable(key: Option<RegKey>, k: RegKey)
    ensures Load(Some(Save(Load(key), k))) == Load(key)
  {
    SaveLoadRoundTrip(Load(key), k);
  }

  /**
   * A key without the values gets the fallbacks passed to `GetValue` (two
   * and three seconds), not the initialisers (four and one seconds) that a
   * missing key leaves.
   */
  lemma EmptyKeyUsesLookupFallbacks()
    ensures Load(Some(RegKey(map[], None))).highlightDuration == 2
    ensures Load(Some(RegKey(map[], None))).refreshInterval == 3
    ensures Load(None).highlightDuration == 4 && Load(None).refreshInterval == 1
  {
  }

  /** A negative stored duration is ignored; zero is accepted, although the validation rule wants a positive interval. */
  lemma StoredIntervalBounds(k: RegKey, d: int32)
    requires k.values == map[RefreshIntervalName := DWord(d)]
    ensures d < 0 ==> Load(Some(k)).refreshInterval == Defaults.refreshInterval
    ensures d >= 0 ==> Load(Some(k)).refreshInterval == d
  {
  }
}
