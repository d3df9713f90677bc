/**
  The cheat file printer and parser (src/ARCodeFile.cpp).

  A file is a sequence of lines: ROOT and CAT open a category, CODE a code, DESC describes what
  was begun last, and the other lines are pairs of hexadecimal words. Categories are not nested.
  Text is free of NUL characters, which end a line in the source.
*/
module CheatFile {
  import opened Bits
  import opened Options

  datatype Code = Code(name: string, description: string, enabled: bool, words: seq<U32>)

  datatype Item = CodeItem(code: Code) | CatItem(name: string, description: string, onlyOne: bool, codes: seq<Code>)

  // -------- characters --------

  predicate IsSpace(c: char) { c == ' ' || '\t' <= c <= '\r' }

  predicate IsBreak(c: char) { c == '\r' || c == '\n' }

  function Upper(c: char): char { if 'a' <= c <= 'z' then c - 'a' + 'A' else c }

  // strncasecmp against an upper-case keyword.
  predicate StartsWith(s: string, keyword: string) {
    |s| >= |keyword| && forall i | 0 <= i < |keyword| :: Upper(s[i]) == keyword[i]
  }

  // -------- scanning --------

  function SkipSpace(s: string): string {
    if s != "" && IsSpace(s[0]) then SkipSpace(s[1..]) else s
  }

  function SkipBlanks(s: string): string {
    if s != "" && (s[0] == ' ' || s[0] == '\t') then SkipBlanks(s[1..]) else s
  }

  // How many characters a %[^\r\n] of some width takes.
  function TextLength(s: string, width: nat): (n: nat)
    ensures n <= |s| && n <= width
  {
    if s == "" || width == 0 || IsBreak(s[0]) then 0 else 1 + TextLength(s[1..], width - 1)
  }

  // Skips white space and takes a non-empty text; the line must end behind it.
  function ScanText(s: string, width: nat): Option<string> {
    var t := SkipSpace(s);
    var n := TextLength(t, width);
    if n == 0 || (n < |t| && !IsBreak(t[n])) then None else Some(t[..n])
  }

  // Whether there is any text for ScanText to take.
  predicate HasText(s: string, width: nat) { TextLength(SkipSpace(s), width) > 0 }

  predicate IsDigit(c: char) { '0' <= c <= '9' }

  function DigitCount(s: string): (n: nat)
    ensures n <= |s|
  {
    if s != "" && IsDigit(s[0]) then 1 + DigitCount(s[1..]) else 0
  }

  predicate Nonzero(digits: string) {
    digits != "" && (digits[0] != '0' || Nonzero(digits[1..]))
  }

  // A decimal number, reduced to whether it is zero, and the rest of the line.
  function ScanFlag(s: string): Option<(bool, string)> {
    var t := SkipSpace(s);
    var u := if t != "" && (t[0] == '-' || t[0] == '+') then t[1..] else t;
    var n := DigitCount(u);
    if n == 0 then None else Some((Nonzero(u[..n]), u[n..]))
  }

  function HexValue(c: char): int {
    if '0' <= c <= '9' then c as int - '0' as int
    else if 'A' <= c <= 'F' then c as int - 'A' as int + 10
    else if 'a' <= c <= 'f' then c as int - 'a' as int + 10
    else -1
  }

  predicate IsHex(c: char) { HexValue(c) >= 0 }

  function HexCount(s: string, width: nat): (n: nat)
    ensures n <= |s| && n <= width && forall i | 0 <= i < n :: IsHex(s[i])
  {
    if s == "" || width == 0 || !IsHex(s[0]) then 0 else 1 + HexCount(s[1..], width - 1)
  }

  function FromHex(s: string): (v: nat)
    requires forall i | 0 <= i < |s| :: IsHex(s[i])
  {
    if s == "" then 0
    else
      assert IsHex(s[|s| - 1]);
      FromHex(s[..|s| - 1]) * 16 + HexValue(s[|s| - 1])
  }

  function Pow16(n: nat): nat { if n == 0 then 1 else 16 * Pow16(n - 1) }

  lemma {:induction false} FromHexPower(s: string)
    requires forall i | 0 <= i < |s| :: IsHex(s[i])
    ensures FromHex(s) < Pow16(|s|)
  {
    if s != "" {
      FromHexPower(s[..|s| - 1]);
    }
  }

  // A word of at most eight hexadecimal digits, and the rest of the line.
  function ScanHex(s: string): Option<(U32, string)> {
    var t := SkipSpace(s);
    var n := HexCount(t, 8);
    if n == 0 then None
    else
      HexFits(t[..n]);
      Some((FromHex(t[..n]), t[n..]))
  }

  lemma HexFits(s: string)
    requires |s| <= 8 && forall i | 0 <= i < |s| :: IsHex(s[i])
    ensures FromHex(s) < 0x1_0000_0000
  {
    FromHexPower(s);
    Pow16Grows(|s|, 8);
    assert Pow16(4) == 0x1_0000;
    assert Pow16(8) == 16 * (16 * (16 * (16 * Pow16(4))));
  }

  lemma {:induction false} Pow16Grows(a: nat, b: nat)
    requires a <= b
    ensures Pow16(a) <= Pow16(b)
  {
    if a < b {
      Pow16Grows(a, b - 1);
    }
  }

  // -------- lines --------

  const LINE_BUFFER := 1024

  // A line goes up to its newline, or fills the buffer.
  function LineLength(text: string, room: nat): (n: nat)
    ensures n <= |text| && (text != "" && room > 0 ==> n > 0)
  {
    if text == "" || room == 0 then 0 else if text[0] == '\n' then 1 else 1 + LineLength(text[1..], room - 1)
  }

  function Lines(text: string): seq<string> {
    if text == "" then []
    else
      var n := LineLength(text, LINE_BUFFER - 1);
      [text[..n]] + Lines(text[n..])
  }

  function Concat(lines: seq<string>): string {
    if lines == [] then "" else lines[0] + Concat(lines[1..])
  }

  // A line that the reader gives back as it is.
  predicate WholeLine(l: string) {
    0 < |l| < LINE_BUFFER && l[|l| - 1] == '\n' && forall i | 0 <= i < |l| - 1 :: l[i] != '\n'
  }

  lemma {:induction false} LineLengthWhole(l: string, rest: string, room: nat)
    requires |l| > 0 && l[|l| - 1] == '\n' && (forall i | 0 <= i < |l| - 1 :: l[i] != '\n') && |l| <= room
    ensures LineLength(l + rest, room) == |l|
  {
    if |l| > 1 {
      assert (l + rest)[1..] == l[1..] + rest;
      LineLengthWhole(l[1..], rest, room - 1);
    }
  }

  lemma {:induction false} LinesOfConcat(lines: seq<string>)
    requires forall i | 0 <= i < |lines| :: WholeLine(lines[i])
    ensures Lines(Concat(lines)) == lines
  {
    if lines != [] {
      var rest := Concat(lines[1..]);
      assert WholeLine(lines[0]);
      LineLengthWhole(lines[0], rest, LINE_BUFFER - 1);
      assert (lines[0] + rest)[..|lines[0]|] == lines[0] && (lines[0] + rest)[|lines[0]|..] == rest;
      LinesOfConcat(lines[1..]);
    }
  }

  lemma {:induction false} ConcatAppend(a: seq<string>, b: seq<string>)
    ensures Concat(a + b) == Concat(a) + Concat(b)
  {
    if a == [] {
      assert a + b == b;
    } else {
      assert (a + b)[1..] == a[1..] + b;
      ConcatAppend(a[1..], b);
    }
  }

  // -------- parsing --------

  // What codes are added to: nothing yet, the root, or the last category.
  datatype Place = Nowhere | Root | Category

  // What a description belongs to.
  datatype Entry = NoEntry | CatEntry | CodeEntry

  datatype State = State(items: seq<Item>, place: Place, inCode: bool, last: Entry) {
    // The parser's pointers are to the last category, and to the last code of the current place.
    predicate Valid() {
      && (place == Category ==> items != [] && items[|items| - 1].CatItem?)
      && (last == CatEntry ==> place == Category)
      && (last == CodeEntry || inCode ==> match place
            case Nowhere => false
            case Root => items != [] && items[|items| - 1].CodeItem?
            case Category => items != [] && items[|items| - 1].CatItem? && items[|items| - 1].codes != [])
    }
  }

  function Last(st: State): Item
    requires st.items != []
  {
    st.items[|st.items| - 1]
  }

  function WithLast(st: State, item: Item): (t: State)
    requires st.items != []
    ensures |t.items| == |st.items| && t.items[|t.items| - 1] == item && t.items[..|t.items| - 1] == st.items[..|st.items| - 1]
  {
    st.(items := st.items[..|st.items| - 1] + [item])
  }

  // The code the parser is at, and its replacement.
  function CurrentCode(st: State): Code
    requires st.Valid() && (st.last == CodeEntry || st.inCode)
  {
    if st.place == Root then Last(st).code else Last(st).codes[|Last(st).codes| - 1]
  }

  function WithCode(st: State, code: Code): State
    requires st.Valid() && (st.last == CodeEntry || st.inCode)
  {
    if st.place == Root then WithLast(st, CodeItem(code))
    else
      var cat := Last(st);
      WithLast(st, cat.(codes := cat.codes[..|cat.codes| - 1] + [code]))
  }

  function AddCode(st: State, code: Code): (t: State)
    requires st.Valid() && st.place != Nowhere
    ensures t.Valid()
  {
    var u := st.(inCode := true, last := CodeEntry);
    if st.place == Root then u.(items := st.items + [CodeItem(code)])
    else
      var cat := Last(st);
      WithLast(u, cat.(codes := cat.codes + [code]))
  }

  function AddCategory(st: State, name: string, onlyOne: bool): (t: State)
    ensures t.Valid()
  {
    State(st.items + [CatItem(name, "", onlyOne, [])], Category, false, CatEntry)
  }

  const NAME_WIDTH := 127
  const DESC_WIDTH := 255

  // The format "CAT %d %127[^\r\n]", with the flag only if it is one digit between spaces.
  function ParseCategory(st: State, s: string): Option<State>
    requires st.Valid() && |s| >= 3
  {
    if s[..3] != "CAT" then None
    else if |s| >= 6 && s[3] == ' ' && (s[4] == '0' || s[4] == '1') && s[5] == ' ' then
      var name := ScanText(s[5..], NAME_WIDTH);
      if name.None? then None else Some(AddCategory(st, name.value, s[4] == '1'))
    else
      var name := ScanText(s[3..], NAME_WIDTH);
      if name.None? then None else Some(AddCategory(st, name.value, false))
  }

  function ParseCode(st: State, s: string): Option<State>
    requires st.Valid() && |s| >= 4
  {
    if s[..4] != "CODE" then None
    else
      var flag := ScanFlag(s[4..]);
      if flag.None? then None
      else
        var name := ScanText(flag.value.1, NAME_WIDTH);
        if name.None? || st.place == Nowhere then None
        else Some(AddCode(st, Code(name.value, "", flag.value.0, [])))
  }

  // A line without any text is ignored.
  function ParseDescription(st: State, s: string): Option<State>
    requires st.Valid() && |s| >= 4
  {
    if s[..4] != "DESC" || !HasText(s[4..], DESC_WIDTH) then Some(st)
    else
      var text := ScanText(s[4..], DESC_WIDTH);
      if text.None? || st.last.NoEntry? then None else Some(Describe(st, text.value))
  }

  function Describe(st: State, text: string): State
    requires st.Valid() && (st.last.CodeEntry? || st.last.CatEntry?)
  {
    match st.last
    case CodeEntry => WithCode(st, CurrentCode(st).(description := text))
    case CatEntry =>
      assert st.place == Category && Last(st).CatItem?;
      WithLast(st, Last(st).(description := text))
    case NoEntry => st
  }

  function ParseData(st: State, s: string): Option<State>
    requires st.Valid()
  {
    var first := ScanHex(s);
    if first.None? then None
    else
      var second := ScanHex(first.value.1);
      if second.None? || !st.inCode then None
      else
        var code := CurrentCode(st);
        Some(WithCode(st, code.(words := code.words + [first.value.0, second.value.0])))
  }

  /** One line. */
  function ParseLine(st: State, line: string): (r: Option<State>)
    requires st.Valid()
    ensures r.Some? ==> r.value.Valid()
  {
    var s := SkipBlanks(line);
    if s == "" || s[0] == '#' || IsBreak(s[0]) then Some(st)
    else if StartsWith(s, "ROOT") then Some(State(st.items, Root, false, NoEntry))
    else if StartsWith(s, "CAT") then ParseCategory(st, s)
    else if StartsWith(s, "CODE") then ParseCode(st, s)
    else if StartsWith(s, "DESC") then ParseDescription(st, s)
    else ParseData(st, s)
  }

  function ParseLines(st: State, lines: seq<string>): (r: Option<State>)
    requires st.Valid()
    ensures r.Some? ==> r.value.Valid()
    decreases |lines|
  {
    if lines == [] then Some(st)
    else
      var next := ParseLine(st, lines[0]);
      if next.None? then None else ParseLines(next.value, lines[1..])
  }

  const START := State([], Nowhere, false, NoEntry)

  // -------- enabled codes --------

  // Only the first enabled code of a category that allows one stays enabled.
  function KeepFirst(codes: seq<Code>, found: bool): (kept: seq<Code>)
    ensures |kept| == |codes|
  {
    if codes == [] then []
    else [codes[0].(enabled := codes[0].enabled && !found)] + KeepFirst(codes[1..], found || codes[0].enabled)
  }

  function Finalized(item: Item): Item {
    if item.CatItem? && item.onlyOne then item.(codes := KeepFirst(item.codes, false)) else item
  }

  function FinalizeList(items: seq<Item>): (f: seq<Item>)
    ensures |f| == |items|
  {
    seq(|items|, i requires 0 <= i < |items| => Finalized(items[i]))
  }

  /** The tree a text stands for, if it is one. */
  function Parsed(text: string): Option<seq<Item>> {
    var st := ParseLines(START, Lines(text));
    if st.None? then None else Some(FinalizeList(st.value.items))
  }

  // -------- printing --------

  predicate ValidText(text: string, max: nat, allowEmpty: bool) {
    if text == "" then allowEmpty
    else |text| <= max && !IsSpace(text[0]) && forall i | 0 <= i < |text| :: !IsBreak(text[i])
  }

  predicate CodeOk(c: Code) {
    ValidText(c.name, NAME_WIDTH, false) && ValidText(c.description, DESC_WIDTH, true) && |c.words| % 2 == 0
  }

  // Loading would disable a second enabled code.
  predicate OneEnabled(codes: seq<Code>, found: bool) {
    codes == [] || (!(codes[0].enabled && found) && OneEnabled(codes[1..], found || codes[0].enabled))
  }

  predicate ItemOk(item: Item) {
    match item
    case CodeItem(code) => CodeOk(code)
    case CatItem(name, description, onlyOne, codes) =>
      && ValidText(name, NAME_WIDTH, false) && ValidText(description, DESC_WIDTH, true)
      && (forall i | 0 <= i < |codes| :: CodeOk(codes[i])) && (onlyOne ==> OneEnabled(codes, false))
  }

  /** What can be saved. */
  predicate Serializable(items: seq<Item>) {
    forall i | 0 <= i < |items| :: ItemOk(items[i])
  }

  function HexDigit(d: nat): char
    requires d < 16
  {
    if d < 10 then '0' + d as char else 'A' + (d - 10) as char
  }

  function Hex(v: nat, n: nat): (s: string)
    ensures |s| == n
  {
    if n == 0 then "" else Hex(v / 16, n - 1) + [HexDigit(v % 16)]
  }

  function DataLines(words: seq<U32>): seq<string>
    requires |words| % 2 == 0
  {
    if words == [] then [] else [Hex(words[0], 8) + " " + Hex(words[1], 8) + "\n"] + DataLines(words[2..])
  }

  function DescriptionLines(description: string): seq<string> {
    if description == "" then [] else ["DESC " + description + "\n"]
  }

  function CodeLines(c: Code): seq<string>
    requires CodeOk(c)
  {
    [(if c.enabled then "CODE 1 " else "CODE 0 ") + c.name + "\n"] + DescriptionLines(c.description) + DataLines(c.words) + ["\n"]
  }

  function CodesLines(codes: seq<Code>): seq<string>
    requires forall i | 0 <= i < |codes| :: CodeOk(codes[i])
  {
    if codes == [] then [] else CodesLines(codes[..|codes| - 1]) + CodeLines(codes[|codes| - 1])
  }

  function CategoryLines(name: string, description: string, onlyOne: bool): seq<string> {
    [(if onlyOne then "CAT 1 " else "CAT 0 ") + name + "\n"] + DescriptionLines(description) + ["\n"]
  }

  // The lines of an item; a code at the root reopens the root behind a category.
  function ItemLines(item: Item, inCategory: bool): seq<string>
    requires ItemOk(item)
  {
    match item
    case CodeItem(code) => (if inCategory then ["ROOT\n", "\n"] else []) + CodeLines(code)
    case CatItem(name, description, onlyOne, codes) => CategoryLines(name, description, onlyOne) + CodesLines(codes)
  }

  // Whether the root must be opened again behind these items.
  predicate BehindCategory(items: seq<Item>) { items == [] || items[|items| - 1].CatItem? }

  function TreeLines(items: seq<Item>): seq<string>
    requires Serializable(items)
  {
    if items == [] then []
    else
      var front := items[..|items| - 1];
      TreeLines(front) + ItemLines(items[|items| - 1], BehindCategory(front))
  }

  // -------- what is printed is whole lines --------

  predicate WholeLines(lines: seq<string>) { forall i | 0 <= i < |lines| :: WholeLine(lines[i]) }

  lemma TextIsWhole(prefix: string, text: string, max: nat)
    requires ValidText(text, max, true) && |prefix| + max < LINE_BUFFER - 1
    requires forall i | 0 <= i < |prefix| :: prefix[i] != '\n'
    ensures WholeLine(prefix + text + "\n")
  {
  }

  lemma {:induction false} HexIsHex(v: nat, n: nat)
    ensures forall i | 0 <= i < n :: ('0' <= Hex(v, n)[i] <= '9' || 'A' <= Hex(v, n)[i] <= 'F') && IsHex(Hex(v, n)[i])
  {
    if n > 0 {
      HexIsHex(v / 16, n - 1);
    }
  }

  lemma {:induction false} DataAreWhole(words: seq<U32>)
    requires |words| % 2 == 0
    ensures WholeLines(DataLines(words))
    decreases |words|
  {
    if words != [] {
      HexIsHex(words[0], 8);
      HexIsHex(words[1], 8);
      var l := Hex(words[0], 8) + " " + Hex(words[1], 8) + "\n";
      assert WholeLine(l) by {
        forall i | 0 <= i < |l| - 1 ensures l[i] != '\n' {
        }
      }
      DataAreWhole(words[2..]);
    }
  }

  lemma CodeIsWhole(c: Code)
    requires CodeOk(c)
    ensures WholeLines(CodeLines(c))
  {
    hide WholeLine;
    TextIsWhole(if c.enabled then "CODE 1 " else "CODE 0 ", c.name, NAME_WIDTH);
    TextIsWhole("DESC ", c.description, DESC_WIDTH);
    DataAreWhole(c.words);
    NewlineIsWhole();
  }

  lemma NewlineIsWhole()
    ensures WholeLine("\n") && WholeLine("ROOT\n")
  {
  }

  lemma {:induction false} CodesAreWhole(codes: seq<Code>)
    requires forall i | 0 <= i < |codes| :: CodeOk(codes[i])
    ensures WholeLines(CodesLines(codes))
    decreases |codes|
  {
    hide WholeLine, CodeOk, CodeLines;
    if codes != [] {
      CodesAreWhole(codes[..|codes| - 1]);
      CodeIsWhole(codes[|codes| - 1]);
    }
  }

  lemma CategoryIsWhole(name: string, description: string, onlyOne: bool)
    requires ValidText(name, NAME_WIDTH, false) && ValidText(description, DESC_WIDTH, true)
    ensures WholeLines(CategoryLines(name, description, onlyOne))
  {
    hide WholeLine;
    TextIsWhole(if onlyOne then "CAT 1 " else "CAT 0 ", name, NAME_WIDTH);
    TextIsWhole("DESC ", description, DESC_WIDTH);
    NewlineIsWhole();
  }

  lemma ItemIsWhole(item: Item, inCategory: bool)
    requires ItemOk(item)
    ensures WholeLines(ItemLines(item, inCategory))
  {
    hide WholeLine, CodeLines, CategoryLines, CodesLines, CodeOk, ValidText, OneEnabled;
    match item {
      case CodeItem(code) =>
        CodeIsWhole(code);
        NewlineIsWhole();
      case CatItem(name, description, onlyOne, codes) =>
        CategoryIsWhole(name, description, onlyOne);
        CodesAreWhole(codes);
    }
  }

  lemma {:induction false} TreeIsWhole(items: seq<Item>)
    requires Serializable(items)
    ensures WholeLines(TreeLines(items))
    decreases |items|
  {
    hide WholeLine, ItemLines, ItemOk;
    if items != [] {
      var front := items[..|items| - 1];
      TreeIsWhole(front);
      ItemIsWhole(items[|items| - 1], BehindCategory(front));
    }
  }

  // -------- single lines, printed and parsed --------

  lemma {:induction false} TextLengthOf(text: string, width: nat)
    requires |text| <= width && forall i | 0 <= i < |text| :: !IsBreak(text[i])
    ensures TextLength(text + "\n", width) == |text|
  {
    if text != "" {
      assert (text + "\n")[1..] == text[1..] + "\n";
      TextLengthOf(text[1..], width - 1);
    }
  }

  // A text behind one space is found again.
  lemma ScanTextOf(text: string, width: nat)
    requires ValidText(text, width, false)
    ensures ScanText(" " + text + "\n", width) == Some(text) && HasText(" " + text + "\n", width)
  {
    var s := " " + text + "\n";
    assert s[1..] == text + "\n";
    assert SkipSpace(s) == SkipSpace(s[1..]) == text + "\n";
    TextLengthOf(text, width);
    assert (text + "\n")[..|text|] == text;
  }

  lemma ParseCodeLine(st: State, enabled: bool, name: string)
    requires st.Valid() && st.place != Nowhere && ValidText(name, NAME_WIDTH, false)
    ensures ParseLine(st, (if enabled then "CODE 1 " else "CODE 0 ") + name + "\n") == Some(AddCode(st, Code(name, "", enabled, [])))
  {
    hide AddCode, ScanText, ValidText, TextLength;
    var digit := if enabled then "1" else "0";
    var s := (if enabled then "CODE 1 " else "CODE 0 ") + name + "\n";
    assert s == "CODE" + (" " + (digit + (" " + name + "\n")));
    assert SkipBlanks(s) == s && s[..4] == "CODE";
    FlagOf(enabled, " " + name + "\n");
    assert s[4..] == " " + (digit + (" " + name + "\n"));
    ScanTextOf(name, NAME_WIDTH);
    assert Upper(s[0]) == 'C' && Upper(s[1]) == 'O';
    assert "ROOT"[0] == 'R' && "CAT"[1] == 'A';
    assert ParseLine(st, s) == ParseCode(st, s);
  }

  lemma FlagOf(flag: bool, rest: string)
    requires rest != "" && rest[0] == ' '
    ensures ScanFlag(" " + ((if flag then "1" else "0") + rest)) == Some((flag, rest))
  {
    var t := (if flag then "1" else "0") + rest;
    var s := " " + t;
    assert s[1..] == t && SkipSpace(s) == SkipSpace(t) == t;
    assert t[1..] == rest && DigitCount(t) == 1 + DigitCount(rest) == 1;
    var digit := t[..1];
    assert digit == if flag then "1" else "0";
    assert digit[1..] == "" && Nonzero(digit) == flag;
    assert !(t[0] == '-' || t[0] == '+');
  }

  lemma ParseCategoryLine(st: State, onlyOne: bool, name: string)
    requires st.Valid() && ValidText(name, NAME_WIDTH, false)
    ensures ParseLine(st, (if onlyOne then "CAT 1 " else "CAT 0 ") + name + "\n") == Some(AddCategory(st, name, onlyOne))
  {
    hide AddCategory, ScanText, ValidText, TextLength;
    var s := (if onlyOne then "CAT 1 " else "CAT 0 ") + name + "\n";
    assert SkipBlanks(s) == s && s[..3] == "CAT" && s[5..] == " " + name + "\n";
    ScanTextOf(name, NAME_WIDTH);
    assert ParseLine(st, s) == ParseCategory(st, s);
  }

  lemma ParseDescriptionLine(st: State, text: string)
    requires st.Valid() && (st.last.CodeEntry? || st.last.CatEntry?) && ValidText(text, DESC_WIDTH, false)
    ensures ParseLine(st, "DESC " + text + "\n") == Some(Describe(st, text))
  {
    hide Describe, ScanText, HasText, ValidText, TextLength;
    var s := "DESC " + text + "\n";
    assert SkipBlanks(s) == s && s[..4] == "DESC" && s[4..] == " " + text + "\n";
    ScanTextOf(text, DESC_WIDTH);
    assert ParseLine(st, s) == ParseDescription(st, s);
  }

  lemma ParseBlankLine(st: State)
    requires st.Valid()
    ensures ParseLine(st, "\n") == Some(st)
  {
  }

  lemma ParseRootLine(st: State)
    requires st.Valid()
    ensures ParseLine(st, "ROOT\n") == Some(State(st.items, Root, false, NoEntry))
  {
    var s := "ROOT\n";
    assert SkipBlanks(s) == s;
  }

  // -------- hexadecimal words --------

  lemma {:induction false} HexCountOf(s: string, rest: string, width: nat)
    requires |s| <= width && (forall i | 0 <= i < |s| :: IsHex(s[i])) && (|s| == width || rest == "" || !IsHex(rest[0]))
    ensures HexCount(s + rest, width) == |s|
  {
    if s != "" {
      assert (s + rest)[1..] == s[1..] + rest;
      HexCountOf(s[1..], rest, width - 1);
    } else {
      assert s + rest == rest;
    }
  }

  lemma {:induction false} FromHexOf(v: nat, n: nat)
    requires v < Pow16(n)
    ensures (forall i | 0 <= i < n :: IsHex(Hex(v, n)[i])) && FromHex(Hex(v, n)) == v
  {
    HexIsHex(v, n);
    if n > 0 {
      FromHexOf(v / 16, n - 1);
      assert Hex(v, n)[..n - 1] == Hex(v / 16, n - 1);
      assert HexValue(HexDigit(v % 16)) == v % 16;
    }
  }

  lemma ScanHexOf(v: U32, rest: string)
    requires rest == "" || !IsHex(rest[0])
    ensures ScanHex(Hex(v, 8) + rest) == Some((v, rest))
  {
    hide Hex, FromHex, HexCount;
    var s := Hex(v, 8) + rest;
    HexIsHex(v, 8);
    assert !IsSpace(s[0]);
    HexCountOf(Hex(v, 8), rest, 8);
    EightDigits();
    FromHexOf(v, 8);
    assert s[..8] == Hex(v, 8) && s[8..] == rest;
  }

  lemma EightDigits()
    ensures Pow16(8) == 0x1_0000_0000
  {
    assert Pow16(4) == 0x1_0000;
    assert Pow16(8) == 16 * (16 * (16 * (16 * Pow16(4))));
  }

  /** A data line is never mistaken for a keyword line. */
  lemma ParseDataLine(st: State, a: U32, b: U32)
    requires st.Valid() && st.inCode
    ensures ParseLine(st, Hex(a, 8) + " " + Hex(b, 8) + "\n")
      == Some(WithCode(st, CurrentCode(st).(words := CurrentCode(st).words + [a, b])))
  {
    hide Hex, WithCode, CurrentCode, ScanHex;
    var s := Hex(a, 8) + " " + Hex(b, 8) + "\n";
    HexIsHex(a, 8);
    DataIsNoKeyword(s);
    var rest := " " + Hex(b, 8) + "\n";
    assert s == Hex(a, 8) + rest;
    ScanHexOf(a, rest);
    ScanHexOf(b, "\n");
    assert rest[1..] == Hex(b, 8) + "\n";
    ScanHexBehindSpace(rest);
    assert ParseLine(st, s) == ParseData(st, s);
  }

  lemma ScanHexBehindSpace(s: string)
    requires s != "" && s[0] == ' '
    ensures ScanHex(s) == ScanHex(s[1..])
  {
  }

  lemma DataIsNoKeyword(s: string)
    requires |s| >= 8 && forall i | 0 <= i < 8 :: ('0' <= s[i] <= '9' || 'A' <= s[i] <= 'F')
    ensures SkipBlanks(s) == s && s[0] != '#' && !IsBreak(s[0])
    ensures !StartsWith(s, "ROOT") && !StartsWith(s, "CAT") && !StartsWith(s, "CODE") && !StartsWith(s, "DESC")
  {
    assert "ROOT"[0] == 'R' && "CAT"[2] == 'T' && "CODE"[1] == 'O' && "DESC"[2] == 'S';
    assert Upper(s[0]) != 'R' && Upper(s[2]) != 'T' && Upper(s[1]) != 'O' && Upper(s[2]) != 'S';
  }

  // -------- whole trees, printed and parsed --------

  lemma {:induction false} ParseLinesAppend(st: State, a: seq<string>, b: seq<string>)
    requires st.Valid()
    ensures var mid := ParseLines(st, a);
      ParseLines(st, a + b) == if mid.None? then None else ParseLines(mid.value, b)
    decreases |a|
  {
    hide ParseLine;
    if a == [] {
      assert a + b == b;
    } else {
      assert (a + b)[1..] == a[1..] + b;
      var next := ParseLine(st, a[0]);
      if next.Some? {
        ParseLinesAppend(next.value, a[1..], b);
      }
    }
  }

  lemma ParseOne(st: State, line: string)
    requires st.Valid()
    ensures ParseLines(st, [line]) == ParseLine(st, line)
  {
    hide ParseLine;
    assert [line][1..] == [];
    var next := ParseLine(st, line);
    if next.Some? {
      assert ParseLines(next.value, []) == next;
    }
  }

  // A code just added is the current one, and replacing it is adding the other.
  lemma AddedIsCurrent(st: State, c: Code, d: Code)
    requires st.Valid() && st.place != Nowhere
    ensures var t := AddCode(st, c); t.last == CodeEntry && t.inCode && CurrentCode(t) == c && WithCode(t, d) == AddCode(st, d)
  {
    var t := AddCode(st, c);
    if st.place == Root {
      assert t.items[..|t.items| - 1] == st.items;
    } else {
      var cat := Last(st);
      assert (cat.codes + [c])[..|cat.codes|] == cat.codes;
      assert t.items[..|t.items| - 1] == st.items[..|st.items| - 1];
    }
  }

  lemma {:induction false} ParseWords(st: State, c: Code, words: seq<U32>)
    requires st.Valid() && st.place != Nowhere && |words| % 2 == 0
    ensures ParseLines(AddCode(st, c), DataLines(words)) == Some(AddCode(st, c.(words := c.words + words)))
    decreases |words|
  {
    hide ParseLine, AddCode, Hex;
    if words == [] {
      assert c.words + words == c.words;
    } else {
      var more := c.(words := c.words + [words[0], words[1]]);
      AddedIsCurrent(st, c, more);
      ParseDataLine(AddCode(st, c), words[0], words[1]);
      ParseWords(st, more, words[2..]);
      assert more.words + words[2..] == c.words + words;
    }
  }

  lemma ParseDescribedCode(st: State, c: Code)
    requires st.Valid() && st.place != Nowhere && ValidText(c.description, DESC_WIDTH, true) && c.words == []
    ensures ParseLines(AddCode(st, c.(description := "")), DescriptionLines(c.description)) == Some(AddCode(st, c))
  {
    hide ParseLine, AddCode;
    if c.description != "" {
      var bare := c.(description := "");
      AddedIsCurrent(st, bare, c);
      ParseDescriptionLine(AddCode(st, bare), c.description);
      ParseOne(AddCode(st, bare), "DESC " + c.description + "\n");
    }
  }

  lemma ParseWholeCode(st: State, c: Code)
    requires st.Valid() && st.place != Nowhere && CodeOk(c)
    ensures ParseLines(st, CodeLines(c)) == Some(AddCode(st, c))
  {
    hide ParseLine, ParseLines, AddCode, DataLines, DescriptionLines, ValidText;
    var bare, named := Code(c.name, "", c.enabled, []), c.(words := []);
    var head := [(if c.enabled then "CODE 1 " else "CODE 0 ") + c.name + "\n"];
    ParseCodeLine(st, c.enabled, c.name);
    ParseOne(st, head[0]);
    ParseDescribedCode(st, named);
    ParseLinesAppend(st, head, DescriptionLines(c.description));
    ParseWords(st, named, c.words);
    assert [] + c.words == c.words;
    ParseLinesAppend(st, head + DescriptionLines(c.description), DataLines(c.words));
    ParseBlankLine(AddCode(st, c));
    ParseOne(AddCode(st, c), "\n");
    ParseLinesAppend(st, head + DescriptionLines(c.description) + DataLines(c.words), ["\n"]);
  }

  // The state behind a category and some of its codes.
  function InCategory(front: seq<Item>, cat: Item): (st: State)
    requires cat.CatItem?
    ensures st.Valid()
  {
    State(front + [cat], Category, cat.codes != [], if cat.codes == [] then CatEntry else CodeEntry)
  }

  lemma AddInCategory(front: seq<Item>, cat: Item, c: Code)
    requires cat.CatItem?
    ensures AddCode(InCategory(front, cat), c) == InCategory(front, cat.(codes := cat.codes + [c]))
  {
    assert (front + [cat])[..|front|] == front;
  }

  lemma {:induction false} ParseCodes(front: seq<Item>, cat: Item, codes: seq<Code>)
    requires cat.CatItem? && cat.codes == [] && forall i | 0 <= i < |codes| :: CodeOk(codes[i])
    ensures ParseLines(InCategory(front, cat), CodesLines(codes)) == Some(InCategory(front, cat.(codes := codes)))
    decreases |codes|
  {
    hide ParseLine, AddCode, CodeLines, CodeOk, InCategory;
    if codes != [] {
      var n := |codes| - 1;
      var before := cat.(codes := codes[..n]);
      ParseCodes(front, cat, codes[..n]);
      ParseLinesAppend(InCategory(front, cat), CodesLines(codes[..n]), CodeLines(codes[n]));
      PlaceInCategory(front, before);
      ParseWholeCode(InCategory(front, before), codes[n]);
      AddInCategory(front, before, codes[n]);
      assert codes[..n] + [codes[n]] == codes;
    } else {
      assert cat.(codes := codes) == cat;
    }
  }

  lemma PlaceInCategory(front: seq<Item>, cat: Item)
    requires cat.CatItem?
    ensures InCategory(front, cat).place == Category && InCategory(front, cat).items == front + [cat]
  {
  }

  lemma ParseCategoryHead(st: State, name: string, description: string, onlyOne: bool)
    requires st.Valid() && ValidText(name, NAME_WIDTH, false) && ValidText(description, DESC_WIDTH, true)
    ensures ParseLines(st, CategoryLines(name, description, onlyOne))
      == Some(InCategory(st.items, CatItem(name, description, onlyOne, [])))
  {
    hide ParseLine, ParseLines;
    var head := [(if onlyOne then "CAT 1 " else "CAT 0 ") + name + "\n"];
    var begun := AddCategory(st, name, onlyOne);
    ParseCategoryLine(st, onlyOne, name);
    ParseOne(st, head[0]);
    ParseLinesAppend(st, head, DescriptionLines(description));
    var described := InCategory(st.items, CatItem(name, description, onlyOne, []));
    if description != "" {
      ParseDescriptionLine(begun, description);
      ParseOne(begun, "DESC " + description + "\n");
      assert begun.items[..|begun.items| - 1] == st.items;
      assert Describe(begun, description) == described;
    } else {
      ParseNone(begun);
      assert begun == described;
    }
    ParseLinesAppend(st, head + DescriptionLines(description), ["\n"]);
    ParseBlankLine(described);
    ParseOne(described, "\n");
  }

  lemma ParseNone(st: State)
    requires st.Valid()
    ensures ParseLines(st, []) == Some(st)
  {
  }

  // The state behind some items, as far as the next item depends on it.
  ghost predicate Behind(st: State, items: seq<Item>) {
    && st.Valid() && st.items == items
    && (if items == [] then st.place == Nowhere
        else if BehindCategory(items) then st.place == Category else st.place == Root)
  }

  lemma ParseItem(st: State, front: seq<Item>, item: Item)
    requires Behind(st, front) && ItemOk(item)
    ensures var t := ParseLines(st, ItemLines(item, BehindCategory(front))); t.Some? && Behind(t.value, front + [item])
  {
    hide ParseLine, ParseLines, CodeLines, CategoryLines, CodesLines, CodeOk, ValidText, OneEnabled;
    match item {
      case CodeItem(code) =>
        if BehindCategory(front) {
          var root := State(st.items, Root, false, NoEntry);
          ParseRootLine(st);
          ParseOne(st, "ROOT\n");
          ParseBlankLine(root);
          ParseOne(root, "\n");
          ParseLinesAppend(st, ["ROOT\n"], ["\n"]);
          assert ["ROOT\n"] + ["\n"] == ["ROOT\n", "\n"];
          ParseLinesAppend(st, ["ROOT\n", "\n"], CodeLines(code));
          ParseWholeCode(root, code);
        } else {
          assert [] + CodeLines(code) == CodeLines(code);
          ParseWholeCode(st, code);
        }
      case CatItem(name, description, onlyOne, codes) =>
        var cat := CatItem(name, description, onlyOne, []);
        ParseCategoryHead(st, name, description, onlyOne);
        ParseLinesAppend(st, CategoryLines(name, description, onlyOne), CodesLines(codes));
        ParseCodes(front, cat, codes);
    }
  }

  lemma {:induction false} ParseTree(items: seq<Item>)
    requires Serializable(items)
    ensures var t := ParseLines(START, TreeLines(items)); t.Some? && Behind(t.value, items)
    decreases |items|
  {
    hide ParseLine, ItemLines, ItemOk, BehindCategory;
    if items != [] {
      var n := |items| - 1;
      var front := items[..n];
      ParseTree(front);
      ParseLinesAppend(START, TreeLines(front), ItemLines(items[n], BehindCategory(front)));
      ParseItem(ParseLines(START, TreeLines(front)).value, front, items[n]);
      assert front + [items[n]] == items;
    } else {
      ParseNone(START);
    }
  }

  lemma {:induction false} KeepFirstKeeps(codes: seq<Code>, found: bool)
    requires OneEnabled(codes, found)
    ensures KeepFirst(codes, found) == codes
  {
    if codes != [] {
      KeepFirstKeeps(codes[1..], found || codes[0].enabled);
    }
  }

  /** Loading what was saved gives the same tree, for every tree that can be saved. */
  lemma LoadSaved(items: seq<Item>)
    requires Serializable(items)
    ensures Parsed(Concat(TreeLines(items))) == Some(items)
  {
    hide ParseLines, TreeLines, WholeLine;
    TreeIsWhole(items);
    LinesOfConcat(TreeLines(items));
    ParseTree(items);
    forall i | 0 <= i < |items| ensures Finalized(items[i]) == items[i] {
      assert ItemOk(items[i]);
      if items[i].CatItem? && items[i].onlyOne {
        KeepFirstKeeps(items[i].codes, false);
      }
    }
    assert FinalizeList(items) == items;
  }

  // -------- what is loaded can be saved --------

  lemma {:induction false} TextLengthTakesText(s: string, width: nat)
    ensures forall i | 0 <= i < TextLength(s, width) :: !IsBreak(s[i])
  {
    if s != "" && width > 0 && !IsBreak(s[0]) {
      TextLengthTakesText(s[1..], width - 1);
    }
  }

  lemma {:induction false} SkipSpaceSkips(s: string)
    ensures SkipSpace(s) == "" || !IsSpace(SkipSpace(s)[0])
  {
    if s != "" && IsSpace(s[0]) {
      SkipSpaceSkips(s[1..]);
    }
  }

  lemma ScannedTextIsValid(s: string, width: nat)
    ensures ScanText(s, width).Some? ==> ValidText(ScanText(s, width).value, width, false)
  {
    TextLengthTakesText(SkipSpace(s), width);
    SkipSpaceSkips(s);
  }

  // An item that can be saved once its enabled codes are sorted out.
  predicate Loadable(item: Item) {
    match item
    case CodeItem(code) => CodeOk(code)
    case CatItem(name, description, onlyOne, codes) =>
      && ValidText(name, NAME_WIDTH, false) && ValidText(description, DESC_WIDTH, true)
      && forall i | 0 <= i < |codes| :: CodeOk(codes[i])
  }

  predicate AllLoadable(items: seq<Item>) { forall i | 0 <= i < |items| :: Loadable(items[i]) }

  lemma AddKeepsLoadable(st: State, code: Code)
    requires st.Valid() && st.place != Nowhere && AllLoadable(st.items) && CodeOk(code)
    ensures AllLoadable(AddCode(st, code).items)
  {
    hide CodeOk, ValidText;
    var t := AddCode(st, code);
    forall i | 0 <= i < |t.items| ensures Loadable(t.items[i]) {
      if i < |t.items| - 1 {
        assert t.items[..|t.items| - 1][i] == st.items[i];
      } else if st.place == Category {
        assert Loadable(Last(st));
      }
    }
  }

  lemma CurrentIsOk(st: State)
    requires st.Valid() && (st.last == CodeEntry || st.inCode) && AllLoadable(st.items)
    ensures CodeOk(CurrentCode(st))
  {
    assert Loadable(Last(st));
  }

  lemma WithCodeKeepsLoadable(st: State, code: Code)
    requires st.Valid() && (st.last == CodeEntry || st.inCode) && AllLoadable(st.items) && CodeOk(code)
    ensures AllLoadable(WithCode(st, code).items)
  {
    hide CodeOk, ValidText;
    var t := WithCode(st, code);
    assert Loadable(Last(st));
    forall i | 0 <= i < |t.items| ensures Loadable(t.items[i]) {
      if i < |t.items| - 1 {
        assert t.items[..|t.items| - 1][i] == st.items[..|st.items| - 1][i];
      }
    }
  }

  lemma DescribeKeepsLoadable(st: State, text: string)
    requires st.Valid() && (st.last.CodeEntry? || st.last.CatEntry?) && AllLoadable(st.items) && ValidText(text, DESC_WIDTH, false)
    ensures AllLoadable(Describe(st, text).items)
  {
    if st.last.CodeEntry? {
      CurrentIsOk(st);
      WithCodeKeepsLoadable(st, CurrentCode(st).(description := text));
    } else {
      var t := Describe(st, text);
      assert Loadable(Last(st));
      forall i | 0 <= i < |t.items| - 1 ensures Loadable(t.items[i]) {
        assert t.items[..|t.items| - 1][i] == st.items[..|st.items| - 1][i];
      }
    }
  }

  lemma LineKeepsLoadable(st: State, line: string)
    requires st.Valid() && AllLoadable(st.items)
    ensures ParseLine(st, line).Some? ==> AllLoadable(ParseLine(st, line).value.items)
  {
    hide AddCode, WithCode, Describe, CurrentCode, ScanText, ScanHex, ScanFlag, HasText, AllLoadable, CodeOk;
    var s := SkipBlanks(line);
    if s != "" && s[0] != '#' && !IsBreak(s[0]) && ParseLine(st, line).Some? && !StartsWith(s, "ROOT") {
      if StartsWith(s, "CAT") {
        CategoryKeepsLoadable(st, s);
      } else if StartsWith(s, "CODE") {
        CodeKeepsLoadable(st, s);
      } else if StartsWith(s, "DESC") {
        ScannedTextIsValid(s[4..], DESC_WIDTH);
        if ParseDescription(st, s) != Some(st) {
          DescribeKeepsLoadable(st, ScanText(s[4..], DESC_WIDTH).value);
        }
      } else {
        DataKeepsLoadable(st, s);
      }
    }
  }

  lemma CategoryKeepsLoadable(st: State, s: string)
    requires st.Valid() && |s| >= 3 && AllLoadable(st.items)
    ensures ParseCategory(st, s).Some? ==> AllLoadable(ParseCategory(st, s).value.items)
  {
    hide ScanText;
    if |s| >= 6 {
      ScannedTextIsValid(s[5..], NAME_WIDTH);
    }
    ScannedTextIsValid(s[3..], NAME_WIDTH);
  }

  lemma CodeKeepsLoadable(st: State, s: string)
    requires st.Valid() && |s| >= 4 && AllLoadable(st.items)
    ensures ParseCode(st, s).Some? ==> AllLoadable(ParseCode(st, s).value.items)
  {
    hide AddCode, ScanText, ScanFlag, AllLoadable, ValidText;
    if ParseCode(st, s).Some? {
      var flag := ScanFlag(s[4..]).value;
      ScannedTextIsValid(flag.1, NAME_WIDTH);
      var code := Code(ScanText(flag.1, NAME_WIDTH).value, "", flag.0, []);
      NewCodeIsOk(code);
      AddKeepsLoadable(st, code);
    }
  }

  lemma NewCodeIsOk(code: Code)
    requires ValidText(code.name, NAME_WIDTH, false) && code.description == "" && code.words == []
    ensures CodeOk(code)
  {
  }

  lemma DataKeepsLoadable(st: State, s: string)
    requires st.Valid() && AllLoadable(st.items)
    ensures ParseData(st, s).Some? ==> AllLoadable(ParseData(st, s).value.items)
  {
    hide ScanHex, WithCode, CurrentCode, AllLoadable;
    if ParseData(st, s).Some? {
      CurrentIsOk(st);
      var first := ScanHex(s).value;
      var second := ScanHex(first.1).value;
      var code := CurrentCode(st);
      WithCodeKeepsLoadable(st, code.(words := code.words + [first.0, second.0]));
    }
  }

  lemma {:induction false} LinesKeepLoadable(st: State, lines: seq<string>)
    requires st.Valid() && AllLoadable(st.items)
    ensures ParseLines(st, lines).Some? ==> AllLoadable(ParseLines(st, lines).value.items)
    decreases |lines|
  {
    hide ParseLine, AllLoadable;
    if lines != [] {
      LineKeepsLoadable(st, lines[0]);
      if ParseLine(st, lines[0]).Some? {
        LinesKeepLoadable(ParseLine(st, lines[0]).value, lines[1..]);
      }
    }
  }

  lemma {:induction false} KeptCodesAreOk(codes: seq<Code>, found: bool)
    requires forall i | 0 <= i < |codes| :: CodeOk(codes[i])
    ensures OneEnabled(KeepFirst(codes, found), found)
    ensures forall i | 0 <= i < |codes| :: CodeOk(KeepFirst(codes, found)[i])
    decreases |codes|
  {
    if codes != [] {
      KeptCodesAreOk(codes[1..], found || codes[0].enabled);
      assert KeepFirst(codes, found)[1..] == KeepFirst(codes[1..], found || codes[0].enabled);
      assert found || KeepFirst(codes, found)[0].enabled == (found || codes[0].enabled);
    }
  }

  /** Every tree that is loaded can be saved again, and then loads as itself. */
  lemma LoadedIsSerializable(text: string)
    ensures Parsed(text).Some? ==> Serializable(Parsed(text).value)
  {
    hide Lines, ParseLines;
    LinesKeepLoadable(START, Lines(text));
    var st := ParseLines(START, Lines(text));
    if st.Some? {
      forall i | 0 <= i < |st.value.items| ensures ItemOk(Finalized(st.value.items[i])) {
        assert Loadable(st.value.items[i]);
        if st.value.items[i].CatItem? {
          KeptCodesAreOk(st.value.items[i].codes, false);
        }
      }
    }
  }

  // -------- the file --------

  class ARCodeFile {
    var items: seq<Item>
    var error: bool

    /** A failed load leaves the tree as it was; a file that does not exist is no failure. */
    method Load(text: Option<string>) returns (ok: bool)
      modifies this
      ensures text.None? ==> ok && items == old(items)
      ensures text.Some? ==> ok == Parsed(text.value).Some? && items == (if ok then Parsed(text.value).value else old(items))
      ensures error == !ok
    {
      hide ParseLine, Finalized;
      error := true;
      if text.None? {
        error := false;
        return true;
      }
      var st, rest := START, text.value;
      while rest != ""
        invariant st.Valid() && items == old(items) && error
        invariant ParseLines(st, Lines(rest)) == ParseLines(START, Lines(text.value))
        decreases |rest|
      {
        var n := LineLength(rest, LINE_BUFFER - 1);
        var next := ParseLine(st, rest[..n]);
        assert Lines(rest) == [rest[..n]] + Lines(rest[n..]);
        if next.None? {
          return false;
        }
        st, rest := next.value, rest[n..];
      }
      items := FinalizeList(st.items);
      error := false;
      return true;
    }

    /** Prints the tree, if it can be loaded again as it is. */
    method Serialize() returns (ok: bool, text: string)
      ensures ok == (!error && Serializable(items))
      ensures ok ==> text == Concat(TreeLines(items)) && Parsed(text) == Some(items)
    {
      hide ItemOk, ItemLines, Parsed;
      ok, text := false, "";
      if error {
        return;
      }
      var isincat := true;
      for k := 0 to |items|
        invariant Serializable(items[..k]) && isincat == BehindCategory(items[..k])
        invariant text == Concat(TreeLines(items[..k]))
      {
        var good := IsItemOk(items[k]);
        if !good {
          return;
        }
        assert items[..k + 1][..k] == items[..k];
        ConcatAppend(TreeLines(items[..k]), ItemLines(items[k], isincat));
        var printed := Print(items[k], isincat);
        text := text + printed;
        isincat := items[k].CatItem?;
      }
      assert items[..|items|] == items;
      LoadSaved(items);
      ok := true;
    }

    // Whether an item can be printed.
    method IsItemOk(item: Item) returns (ok: bool)
      ensures ok == ItemOk(item)
    {
      match item
      case CodeItem(code) => ok := CodeOk(code);
      case CatItem(name, description, onlyOne, codes) =>
        ok := ValidText(name, NAME_WIDTH, false) && ValidText(description, DESC_WIDTH, true);
        var foundEnabled, i := false, 0;
        while i < |codes| && ok
          invariant 0 <= i <= |codes|
          invariant ok ==> ValidText(name, NAME_WIDTH, false) && ValidText(description, DESC_WIDTH, true)
          invariant ok ==> forall j | 0 <= j < i :: CodeOk(codes[j])
          invariant ok && onlyOne ==> (OneEnabled(codes, false) <==> OneEnabled(codes[i..], foundEnabled))
          invariant !ok ==> !ItemOk(item)
        {
          var code := codes[i];
          assert codes[i..][0] == code && codes[i..][1..] == codes[i + 1..];
          if (onlyOne && code.enabled && foundEnabled) || !CodeOk(code) {
            ok := false;
          }
          foundEnabled := foundEnabled || code.enabled;
          i := i + 1;
        }
    }

    // The text of an item.
    method Print(item: Item, inCategory: bool) returns (text: string)
      requires ItemOk(item)
      ensures text == Concat(ItemLines(item, inCategory))
    {
      hide CodeLines, CategoryLines, CodeOk, ValidText;
      match item
      case CodeItem(code) =>
        var head := if inCategory then ["ROOT\n", "\n"] else [];
        ConcatAppend(head, CodeLines(code));
        text := Concat(head) + Concat(CodeLines(code));
      case CatItem(name, description, onlyOne, codes) =>
        text := Concat(CategoryLines(name, description, onlyOne));
        assert codes[..0] == [] && CategoryLines(name, description, onlyOne) + [] == CategoryLines(name, description, onlyOne);
        for k := 0 to |codes|
          invariant text == Concat(CategoryLines(name, description, onlyOne) + CodesLines(codes[..k]))
        {
          assert codes[..k + 1][..k] == codes[..k];
          var so := CategoryLines(name, description, onlyOne) + CodesLines(codes[..k]);
          ConcatAppend(so, CodeLines(codes[k]));
          assert so + CodeLines(codes[k]) == CategoryLines(name, description, onlyOne) + CodesLines(codes[..k + 1]);
          text := text + Concat(CodeLines(codes[k]));
        }
        assert codes[..|codes|] == codes;
    }
  }
}
