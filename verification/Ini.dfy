/** The INI parser, the printer of its example program, and their round trip. Text is a sequence of
    characters; a line buffer is a C string, so it ends at its first NUL. */
module Ini {

  const MAX_SECTION := 50
  const MAX_NAME := 50
  const INI_MAX_LINE := 200

  predicate IsSpace(c: char) {
    c == ' ' || c == '\t' || c == '\n' || c == '\U{0B}' || c == '\U{0C}' || c == '\r'
  }

  /** A call of the handler. */
  datatype Entry = Entry(section: string, name: string, value: string)

  /** The variables of the parser that live from line to line, and the calls it has made. */
  datatype Parser = Parser(section: string, prevName: string, error: nat, calls: seq<Entry>)

  function Initial(): Parser {
    Parser("", "", 0, [])
  }

  /** The string without trailing white space. */
  function RStripped(s: string): (r: string)
    ensures r <= s && (r != "" ==> !IsSpace(r[|r| - 1]))
    ensures forall i :: |r| <= i < |s| ==> IsSpace(s[i])
  {
    if s != "" && IsSpace(s[|s| - 1]) then RStripped(s[..|s| - 1]) else s
  }

  /** The number of leading white space characters. */
  function Leading(s: string): (n: nat)
    ensures n <= |s| && (n < |s| ==> !IsSpace(s[n]))
    ensures forall i :: 0 <= i < n ==> IsSpace(s[i])
  {
    if s != "" && IsSpace(s[0]) then 1 + Leading(s[1..]) else 0
  }

  /** A place where the search for one of chars stops: at such a character, or at a semicolon after
      white space. */
  predicate StopsAt(s: string, chars: string, i: nat)
    requires i < |s|
  {
    s[i] in chars || (i > 0 && IsSpace(s[i - 1]) && s[i] == ';')
  }

  /** The first such place, or the end of the string. */
  function FoundFrom(s: string, chars: string, i: nat): (n: nat)
    requires i <= |s|
    ensures i <= n <= |s| && (n < |s| ==> StopsAt(s, chars, n))
    ensures forall j :: i <= j < n ==> !StopsAt(s, chars, j)
    decreases |s| - i
  {
    if i == |s| || StopsAt(s, chars, i) then i else FoundFrom(s, chars, i + 1)
  }

  function Found(s: string, chars: string): nat {
    FoundFrom(s, chars, 0)
  }

  /** strncpy0: a copy into a buffer of the given size. */
  function Copied(s: string, size: nat): string
    requires size > 0
  {
    if |s| < size then s else s[..size - 1]
  }

  /** The part of a line before its first NUL. */
  function CString(s: string): (r: string)
    ensures r <= s && '\0' !in r && ('\0' !in s ==> r == s) && (|r| < |s| ==> s[|r|] == '\0')
  {
    if s == "" || s[0] == '\0' then "" else [s[0]] + CString(s[1..])
  }

  /** Where the line that starts at i ends, when fgets may read n characters: behind the next newline. */
  function LineEnd(text: string, i: nat, n: nat): (e: nat)
    requires i <= |text|
    ensures i <= e <= |text| && e <= i + n && (i < |text| && n > 0 ==> i < e)
    ensures forall k :: i <= k < e - 1 ==> text[k] != '\n'
    ensures e < |text| && e < i + n ==> e > i && text[e - 1] == '\n'
    decreases n
  {
    if i == |text| || n == 0 then i
    else if text[i] == '\n' then i + 1
    else LineEnd(text, i + 1, n - 1)
  }

  /** What fgets reads. */
  function Line(text: string, n: nat): (r: string)
    ensures r <= text && |r| <= n && (text != "" && n > 0 ==> r != "")
    ensures (forall k :: 0 <= k < |r| - 1 ==> r[k] != '\n')
    ensures |r| < n && |r| < |text| ==> r != "" && r[|r| - 1] == '\n'
  {
    text[..LineEnd(text, 0, n)]
  }

  predicate HasBom(s: string) {
    |s| >= 3 && s[0] == '\U{EF}' && s[1] == '\U{BB}' && s[2] == '\U{BF}'
  }

  /** One line. accepts is the result of the handler. */
  function AfterLine(p: Parser, line: string, lineno: nat, accepts: Entry -> bool): Parser {
    var bom := lineno == 1 && HasBom(line);
    var stripped := RStripped(if bom then line[3..] else line);
    var start := stripped[Leading(stripped)..];
    if start != "" && (start[0] == ';' || start[0] == '#') then p
    else if p.prevName != "" && start != "" && (bom || |start| < |stripped|) then
      Called(p, Entry(p.section, p.prevName, start), lineno, accepts)
    else if start != "" && start[0] == '[' then
      AfterSection(p, start[1..], lineno)
    else if start != "" then
      AfterPair(p, start, lineno, accepts)
    else p
  }

  /** A section line, from behind its bracket. */
  function AfterSection(p: Parser, rest: string, lineno: nat): Parser {
    var end := Found(rest, "]");
    if end < |rest| && rest[end] == ']' then p.(section := Copied(rest[..end], MAX_SECTION), prevName := "")
    else Failed(p, lineno)
  }

  /** A line with a name and a value. */
  function AfterPair(p: Parser, start: string, lineno: nat, accepts: Entry -> bool): Parser {
    var end := Found(start, "=:");
    if end < |start| && (start[end] == '=' || start[end] == ':') then
      var name, after := RStripped(start[..end]), start[end + 1..];
      var value := after[Leading(after)..];
      var e := Entry(p.section, name, RStripped(value[..Found(value, "")]));
      Called(p.(prevName := Copied(name, MAX_NAME)), e, lineno, accepts)
    else Failed(p, lineno)
  }

  /** Only the first error is kept. */
  function Failed(p: Parser, lineno: nat): Parser {
    if p.error == 0 then p.(error := lineno) else p
  }

  function Called(p: Parser, e: Entry, lineno: nat, accepts: Entry -> bool): Parser {
    var q := p.(calls := p.calls + [e]);
    if accepts(e) then q else Failed(q, lineno)
  }

  /** The whole text, line by line, from line number lineno on. */
  function AfterText(p: Parser, text: string, lineno: nat, accepts: Entry -> bool): Parser
    decreases |text|
  {
    if text == "" then p
    else
      var line := Line(text, INI_MAX_LINE - 1);
      AfterText(AfterLine(p, CString(line), lineno, accepts), text[|line|..], lineno + 1, accepts)
  }

  /** The white space of the C locale. */
  lemma SpacesAre()
    ensures forall c :: IsSpace(c) <==> c in " \t\n\U{0B}\U{0C}\r"
  {
  }

  /** What is stripped. */
  lemma StrippedAre(s: string)
    ensures forall i :: |RStripped(s)| <= i < |s| ==> s[i] in " \t\n\U{0B}\U{0C}\r"
    ensures RStripped(s) != "" ==> RStripped(s)[|RStripped(s)| - 1] !in " \t\n\U{0B}\U{0C}\r"
    ensures forall i :: 0 <= i < Leading(s) ==> s[i] in " \t\n\U{0B}\U{0C}\r"
    ensures Leading(s) < |s| ==> s[Leading(s)] !in " \t\n\U{0B}\U{0C}\r"
  {
    SpacesAre();
    hide IsSpace, RStripped, Leading;
  }

  method RStrip(s: string) returns (r: string)
    ensures r == RStripped(s)
    ensures r <= s && forall i :: |r| <= i < |s| ==> s[i] in " \t\n\U{0B}\U{0C}\r"
    ensures r != "" ==> r[|r| - 1] !in " \t\n\U{0B}\U{0C}\r"
  {
    hide IsSpace, RStripped;
    var p := |s|;
    assert s[..|s|] == s;
    while p > 0 && IsSpace(s[p - 1])
      invariant 0 <= p <= |s| && RStripped(s[..p]) == RStripped(s)
    {
      StripsOne(s, p);
      p := p - 1;
    }
    StripsNone(s, p);
    StrippedAre(s);
    r := s[..p];
  }

  lemma StripsOne(s: string, p: nat)
    requires 0 < p <= |s| && IsSpace(s[p - 1])
    ensures RStripped(s[..p - 1]) == RStripped(s[..p])
  {
    assert s[..p][..p - 1] == s[..p - 1];
  }

  lemma StripsNone(s: string, p: nat)
    requires p <= |s| && (p > 0 ==> !IsSpace(s[p - 1]))
    ensures RStripped(s[..p]) == s[..p]
  {
  }

  method LSkip(s: string) returns (r: string)
    ensures r == s[Leading(s)..]
    ensures |r| <= |s| && r == s[|s| - |r|..] && forall i :: 0 <= i < |s| - |r| ==> s[i] in " \t\n\U{0B}\U{0C}\r"
    ensures r != "" ==> r[0] !in " \t\n\U{0B}\U{0C}\r"
  {
    StrippedAre(s);
    hide IsSpace;
    var p := 0;
    while p < |s| && IsSpace(s[p])
      invariant 0 <= p <= |s| && Leading(s) == p + Leading(s[p..])
    {
      assert s[p..][1..] == s[p + 1..];
      p := p + 1;
    }
    r := s[p..];
  }

  method FindCharsOrComment(s: string, chars: string) returns (n: nat)
    ensures n == Found(s, chars)
    ensures n <= |s| && forall i :: 0 <= i < n ==> s[i] !in chars
    ensures forall i :: 0 < i < n && s[i] == ';' ==> s[i - 1] !in " \t\n\U{0B}\U{0C}\r"
    ensures n < |s| && s[n] !in chars ==> s[n] == ';' && n > 0 && s[n - 1] in " \t\n\U{0B}\U{0C}\r"
  {
    SpacesAre();
    hide IsSpace;
    n := 0;
    var wasSpace := false;
    while n < |s| && s[n] !in chars && !(wasSpace && s[n] == ';')
      invariant n <= |s| && Found(s, chars) == FoundFrom(s, chars, n)
      invariant wasSpace == (n > 0 && IsSpace(s[n - 1]))
    {
      wasSpace := IsSpace(s[n]);
      n := n + 1;
    }
    forall i | 0 <= i < n
      ensures s[i] !in chars && !(i > 0 && IsSpace(s[i - 1]) && s[i] == ';')
    {
      assert !StopsAt(s, chars, i);
    }
  }

  lemma {:induction false} LineEndShift(text: string, pos: nat, i: nat, n: nat)
    requires pos <= i <= |text|
    ensures pos + LineEnd(text[pos..], i - pos, n) == LineEnd(text, i, n)
    decreases n
  {
    if i < |text| && n > 0 && text[i] != '\n' {
      LineEndShift(text, pos, i + 1, n - 1);
    }
  }

  /** Reads a line from the text; the reader of ini_parse_stream. */
  method Fgets(text: string, pos: nat, num: nat) returns (line: string)
    requires pos < |text| && num > 1
    ensures line == Line(text[pos..], num - 1)
    ensures 0 < |line| <= num - 1 && line <= text[pos..] && forall k :: 0 <= k < |line| - 1 ==> line[k] != '\n'
    ensures |line| < num - 1 && |line| < |text| - pos ==> line[|line| - 1] == '\n'
  {
    hide Line;
    line := "";
    var i, newline := pos, false;
    while i < |text| && |line| < num - 1 && !newline
      invariant pos <= i <= |text| && |line| == i - pos <= num - 1 && line == text[pos..i]
      invariant LineEnd(text, pos, num - 1) == if newline then i else LineEnd(text, i, num - 1 - |line|)
      decreases |text| - i
    {
      newline := text[i] == '\n';
      line := line + [text[i]];
      i := i + 1;
    }
    LineFrom(text, pos, num - 1);
  }

  lemma LineFrom(text: string, pos: nat, n: nat)
    requires pos <= |text|
    ensures Line(text[pos..], n) == text[pos..LineEnd(text, pos, n)]
  {
    LineEndShift(text, pos, pos, n);
    hide LineEnd;
    var e := LineEnd(text, pos, n);
    assert text[pos..][..e - pos] == text[pos..e];
  }

  lemma TextStep(p: Parser, text: string, pos: nat, lineno: nat, accepts: Entry -> bool)
    requires pos < |text|
    ensures var line := Line(text[pos..], INI_MAX_LINE - 1);
      && 0 < |line| && pos + |line| <= |text|
      && AfterText(p, text[pos..], lineno, accepts)
         == AfterText(AfterLine(p, CString(line), lineno, accepts), text[pos + |line|..], lineno + 1, accepts)
  {
    hide AfterLine, CString;
    var line := Line(text[pos..], INI_MAX_LINE - 1);
    assert text[pos..][|line|..] == text[pos + |line|..];
  }

  method ParseStream(text: string, accepts: Entry -> bool) returns (error: nat, calls: seq<Entry>)
    ensures var p := AfterText(Initial(), text, 1, accepts); error == p.error && calls == p.calls
  {
    hide AfterLine, CString, Line, LineEnd, AfterText, RStripped, Leading, FoundFrom, IsSpace, Initial;
    var p := Initial();
    var pos, lineno := 0, 0;
    assert text[0..] == text;
    while pos < |text|
      invariant 0 <= pos <= |text|
      invariant AfterText(Initial(), text, 1, accepts) == AfterText(p, text[pos..], lineno + 1, accepts)
      decreases |text| - pos
    {
      var line := Fgets(text, pos, INI_MAX_LINE);
      TextStep(p, text, pos, lineno + 1, accepts);
      lineno := lineno + 1;
      p := ParseLine(p, CString(line), lineno, accepts);
      pos := pos + |line|;
    }
    NothingLeft(p, text, lineno + 1, accepts);
    error, calls := p.error, p.calls;
  }

  lemma NothingLeft(p: Parser, text: string, lineno: nat, accepts: Entry -> bool)
    ensures AfterText(p, text[|text|..], lineno, accepts) == p
  {
  }

  method ParseLine(p: Parser, line: string, lineno: nat, accepts: Entry -> bool) returns (q: Parser)
    ensures q == AfterLine(p, line, lineno, accepts)
  {
    hide AfterSection, AfterPair;
    var bom := lineno == 1 && HasBom(line);
    var stripped := RStrip(if bom then line[3..] else line);
    var start := LSkip(stripped);
    q := p;
    if start != "" && (start[0] == ';' || start[0] == '#') {
    } else if p.prevName != "" && start != "" && (bom || |start| < |stripped|) {
      q := CallHandler(q, Entry(p.section, p.prevName, start), lineno, accepts);
    } else if start != "" && start[0] == '[' {
      q := ParseSection(p, start[1..], lineno);
    } else if start != "" {
      q := ParsePair(p, start, lineno, accepts);
    }
  }

  method ParseSection(p: Parser, rest: string, lineno: nat) returns (q: Parser)
    ensures q == AfterSection(p, rest, lineno)
  {
    q := p;
    var end := FindCharsOrComment(rest, "]");
    if end < |rest| && rest[end] == ']' {
      q := q.(section := Copied(rest[..end], MAX_SECTION), prevName := "");
    } else if q.error == 0 {
      q := q.(error := lineno);
    }
  }

  method ParsePair(p: Parser, start: string, lineno: nat, accepts: Entry -> bool) returns (q: Parser)
    ensures q == AfterPair(p, start, lineno, accepts)
  {
    hide RStripped, Leading, FoundFrom, Called;
    q := p;
    var end := FindCharsOrComment(start, "=:");
    if end < |start| && (start[end] == '=' || start[end] == ':') {
      var name := RStrip(start[..end]);
      var value := LSkip(start[end + 1..]);
      end := FindCharsOrComment(value, "");
      value := RStrip(value[..end]);
      q := CallHandler(q.(prevName := Copied(name, MAX_NAME)), Entry(p.section, name, value), lineno, accepts);
    } else if q.error == 0 {
      q := q.(error := lineno);
    }
  }

  method CallHandler(p: Parser, e: Entry, lineno: nat, accepts: Entry -> bool) returns (q: Parser)
    ensures q == Called(p, e, lineno, accepts)
  {
    q := p.(calls := p.calls + [e]);
    if !accepts(e) && q.error == 0 {
      q := q.(error := lineno);
    }
  }

  /** The lines the dumper prints for an entry after one of section prev. */
  function HeaderLines(prev: string, section: string): string {
    if section == prev then "" else (if prev != "" then "\n" else "") + "[" + section + "]\n"
  }

  function EntryLine(e: Entry): string {
    e.name + " = " + e.value + "\n"
  }

  function Printed(prev: string, entries: seq<Entry>): string
    decreases |entries|
  {
    if entries == [] then ""
    else
      HeaderLines(prev, entries[0].section) + EntryLine(entries[0])
      + Printed(Copied(if entries[0].section == prev then prev else entries[0].section, MAX_SECTION), entries[1..])
  }

  /** The handler of the example program, with its static variable. */
  class Dumper {
    var prevSection: string
    var out: string

    constructor ()
      ensures prevSection == "" && out == ""
    {
      prevSection, out := "", "";
    }

    method Dump(section: string, name: string, value: string) returns (result: int)
      requires |prevSection| < MAX_SECTION
      modifies this
      ensures out == old(out) + HeaderLines(old(prevSection), section) + EntryLine(Entry(section, name, value))
      ensures out == old(out)
        + (if section == old(prevSection) then ""
           else (if old(prevSection) != "" then "\n[" else "[") + section + "]\n")
        + (name + " = " + value + "\n")
      ensures prevSection == Copied(if section == old(prevSection) then old(prevSection) else section, MAX_SECTION)
      ensures prevSection == if |section| < 50 then section else section[..49]
      ensures |prevSection| < MAX_SECTION && result == 1
    {
      PrintedLines(prevSection, section, name, value);
      hide HeaderLines, EntryLine;
      if section != prevSection {
        out := out + HeaderLines(prevSection, section);
        prevSection := Copied(section, MAX_SECTION);
      } else {
        assert out + "" == out;
      }
      out := out + EntryLine(Entry(section, name, value));
      result := 1;
    }
  }

  /** What is printed, character by character. */
  lemma PrintedLines(prev: string, section: string, name: string, value: string)
    ensures HeaderLines(prev, section) ==
      if section == prev then "" else (if prev != "" then "\n[" else "[") + section + "]\n"
    ensures EntryLine(Entry(section, name, value)) == name + " = " + value + "\n"
  {
  }

  predicate Trimmed(s: string) {
    s != "" ==> !IsSpace(s[0]) && !IsSpace(s[|s| - 1])
  }

  predicate OneLine(s: string) {
    '\n' !in s && '\0' !in s
  }

  /** Nothing in the string starts an inline comment. */
  predicate NoComment(s: string) {
    forall i :: 0 < i < |s| ==> !(IsSpace(s[i - 1]) && s[i] == ';')
  }

  predicate PlainName(s: string) {
    && s != "" && Trimmed(s) && OneLine(s) && NoComment(s) && '=' !in s && ':' !in s
    && s[0] != '[' && s[0] != ';' && s[0] != '#'
  }

  /** An entry that the printer writes in a form the parser can read. */
  predicate Printable(e: Entry) {
    && PlainName(e.name) && Trimmed(e.value) && OneLine(e.value) && NoComment(e.value)
    && OneLine(e.section) && NoComment(e.section) && ']' !in e.section && |e.section| < 50
    && |e.name| + |e.value| + 4 < 200
  }

  lemma StripsTo(s: string, core: string)
    requires core <= s && (core != "" ==> !IsSpace(core[|core| - 1]))
    requires forall i :: |core| <= i < |s| ==> IsSpace(s[i])
    ensures RStripped(s) == core
  {
    var r := RStripped(s);
    if |r| > |core| || |r| < |core| {
      assert false;
    }
  }

  lemma LeadsWith(s: string, n: nat)
    requires n <= |s| && (n < |s| ==> !IsSpace(s[n])) && forall i :: 0 <= i < n ==> IsSpace(s[i])
    ensures Leading(s) == n
  {
    var m := Leading(s);
    if m < n {
      assert false;
    }
  }

  lemma FoundAt(s: string, chars: string, n: nat)
    requires n <= |s| && (n < |s| ==> StopsAt(s, chars, n)) && forall i :: 0 <= i < n ==> !StopsAt(s, chars, i)
    ensures Found(s, chars) == n
  {
    var m := Found(s, chars);
    if m > n {
      assert false;
    }
  }

  /** What is left of a printed line once it is stripped. */
  function Core(e: Entry): string {
    if e.value == "" then e.name + " =" else e.name + " = " + e.value
  }

  lemma CoreStrips(e: Entry)
    requires Printable(e)
    ensures Core(e) != "" && e.name != "" && RStripped(EntryLine(e)) == Core(e) && Core(e)[0] == e.name[0]
    ensures Leading(Core(e)) == 0
  {
    var line, core := EntryLine(e), Core(e);
    if e.value == "" {
      assert line == core + " \n";
    } else {
      assert line == core + "\n";
      assert core[|core| - 1] == e.value[|e.value| - 1];
    }
    StripsTo(line, core);
    LeadsWith(core, 0);
  }

  lemma CoreFound(e: Entry)
    requires Printable(e)
    ensures |Core(e)| >= |e.name| + 2 && Found(Core(e), "=:") == |e.name| + 1 && Core(e)[|e.name| + 1] == '='
    ensures RStripped(Core(e)[..|e.name| + 1]) == e.name
  {
    var core, n := Core(e), |e.name|;
    assert core[..n + 1] == e.name + " ";
    forall i | 0 <= i < n + 1
      ensures !StopsAt(core, "=:", i)
    {
      assert core[i] == (e.name + " ")[i];
      if i < n {
        assert core[i] == e.name[i];
        assert i > 0 ==> core[i - 1] == e.name[i - 1];
      }
    }
    FoundAt(core, "=:", n + 1);
    StripsTo(e.name + " ", e.name);
  }

  lemma CoreValue(e: Entry)
    requires Printable(e)
    ensures |Core(e)| >= |e.name| + 2
    ensures var after := Core(e)[|e.name| + 2..]; after[Leading(after)..] == e.value
    ensures Found(e.value, "") == |e.value| && RStripped(e.value) == e.value
  {
    var after := Core(e)[|e.name| + 2..];
    if e.value == "" {
      LeadsWith(after, 0);
    } else {
      assert after == " " + e.value;
      LeadsWith(after, 1);
    }
    FoundAt(e.value, "", |e.value|);
    StripsTo(e.value, e.value);
  }

  /** The parser reads back the line of an entry. */
  lemma EntryLineParsed(p: Parser, e: Entry, lineno: nat, accepts: Entry -> bool)
    requires Printable(e) && p.section == e.section && p.error == 0 && accepts(e)
    requires lineno == 1 ==> !HasBom(EntryLine(e))
    ensures AfterLine(p, EntryLine(e), lineno, accepts) ==
      p.(prevName := Copied(e.name, MAX_NAME), calls := p.calls + [e])
  {
    hide RStripped, Leading, Found, Core, EntryLine, AfterPair, HasBom, Copied, Called, Trimmed, OneLine, NoComment;
    CoreStrips(e);
    CoreFound(e);
    CoreValue(e);
    var core := Core(e);
    PairParsed(p, core, e, lineno, accepts);
    assert core[0..] == core;
  }

  lemma PairParsed(p: Parser, core: string, e: Entry, lineno: nat, accepts: Entry -> bool)
    requires Printable(e) && p.section == e.section && p.error == 0 && accepts(e)
    requires |core| >= |e.name| + 2 && Found(core, "=:") == |e.name| + 1 && core[|e.name| + 1] == '='
    requires RStripped(core[..|e.name| + 1]) == e.name
    requires var after := core[|e.name| + 2..]; after[Leading(after)..] == e.value
    requires Found(e.value, "") == |e.value| && RStripped(e.value) == e.value
    ensures AfterPair(p, core, lineno, accepts) == p.(prevName := Copied(e.name, MAX_NAME), calls := p.calls + [e])
  {
    hide RStripped, Leading, Found, Printable;
    assert e.value[..|e.value|] == e.value;
  }

  function Header(section: string): string {
    "[" + section + "]\n"
  }

  lemma SectionParsed(p: Parser, section: string, lineno: nat)
    requires NoComment(section) && ']' !in section && |section| < MAX_SECTION
    ensures AfterSection(p, section + "]", lineno) == p.(section := section, prevName := "")
  {
    var rest := section + "]";
    forall i | 0 <= i < |section|
      ensures !StopsAt(rest, "]", i)
    {
      assert rest[i] == section[i];
      assert i > 0 ==> rest[i - 1] == section[i - 1];
    }
    FoundAt(rest, "]", |section|);
    assert rest[..|section|] == section;
    hide Found;
  }

  lemma HeaderStrips(section: string)
    ensures var core := "[" + section + "]";
      RStripped(Header(section)) == core && Leading(core) == 0 && core[0..] == core && core[1..] == section + "]"
  {
    var core := "[" + section + "]";
    assert Header(section) == core + "\n";
    StripsTo(Header(section), core);
    LeadsWith(core, 0);
  }

  lemma HeaderParsed(p: Parser, section: string, lineno: nat, accepts: Entry -> bool)
    requires NoComment(section) && ']' !in section && |section| < MAX_SECTION
    ensures AfterLine(p, Header(section), lineno, accepts) == p.(section := section, prevName := "")
  {
    HeaderStrips(section);
    SectionParsed(p, section, lineno);
    assert !HasBom(Header(section));
    hide RStripped, Leading, AfterSection, AfterPair, Header, HasBom, Called;
  }

  lemma BlankParsed(p: Parser, lineno: nat, accepts: Entry -> bool)
    ensures AfterLine(p, "\n", lineno, accepts) == p
  {
    StripsTo("\n", "");
    LeadsWith("", 0);
  }

  /** A short line without newline is read as a whole. */
  lemma {:induction false} LineEndAt(text: string, i: nat, end: nat, n: nat)
    requires i <= end < |text| && text[end] == '\n' && end - i < n
    requires forall k :: i <= k < end ==> text[k] != '\n'
    ensures LineEnd(text, i, n) == end + 1
    decreases n
  {
    if i < end {
      LineEndAt(text, i + 1, end, n - 1);
    }
  }

  lemma LineRead(p: Parser, body: string, text: string, lineno: nat, accepts: Entry -> bool)
    requires OneLine(body) && |body| + 1 < INI_MAX_LINE
    ensures AfterText(p, (body + "\n") + text, lineno, accepts)
         == AfterText(AfterLine(p, body + "\n", lineno, accepts), text, lineno + 1, accepts)
  {
    hide AfterLine;
    var line := body + "\n";
    var all := line + text;
    forall k | 0 <= k < |body|
      ensures all[k] != '\n'
    {
      assert all[k] == body[k];
    }
    LineEndAt(all, 0, |body|, INI_MAX_LINE - 1);
    assert all[..|line|] == line && all[|line|..] == text;
    assert '\0' !in line;
  }

  lemma BlankRead(p: Parser, text: string, lineno: nat, accepts: Entry -> bool)
    ensures AfterText(p, "\n" + text, lineno, accepts) == AfterText(p, text, lineno + 1, accepts)
  {
    hide AfterText, AfterLine;
    LineRead(p, "", text, lineno, accepts);
    assert "" + "\n" == "\n";
    BlankParsed(p, lineno, accepts);
  }

  lemma HeaderRead(p: Parser, section: string, text: string, lineno: nat, accepts: Entry -> bool)
    requires OneLine(section) && NoComment(section) && ']' !in section && |section| < MAX_SECTION
    ensures AfterText(p, Header(section) + text, lineno, accepts)
         == AfterText(p.(section := section, prevName := ""), text, lineno + 1, accepts)
  {
    hide AfterText, AfterLine, NoComment;
    assert Header(section) == ("[" + section + "]") + "\n";
    LineRead(p, "[" + section + "]", text, lineno, accepts);
    HeaderParsed(p, section, lineno, accepts);
  }

  lemma HeaderLinesAre(prev: string, section: string, text: string)
    ensures HeaderLines(prev, section) + text ==
      if section == prev then text
      else if prev != "" then "\n" + (Header(section) + text)
      else Header(section) + text
  {
  }

  /** The parser reads back what was printed before an entry. */
  lemma HeaderLinesRead(p: Parser, prev: string, section: string, text: string, lineno: nat, accepts: Entry -> bool)
    returns (q: Parser, next: nat)
    requires OneLine(section) && NoComment(section)
    requires ']' !in section && |section| < MAX_SECTION && p.section == prev && lineno > 0
    ensures AfterText(p, HeaderLines(prev, section) + text, lineno, accepts) == AfterText(q, text, next, accepts)
    ensures q == p.(section := section, prevName := q.prevName) && next >= lineno && (next == 1 ==> section == prev)
  {
    hide AfterText, AfterLine, HeaderLines, Header, OneLine, NoComment;
    q, next := p, lineno;
    HeaderLinesAre(prev, section, text);
    if section != prev {
      if prev != "" {
        BlankRead(q, Header(section) + text, next, accepts);
        next := next + 1;
      }
      HeaderRead(q, section, text, next, accepts);
      q, next := q.(section := section, prevName := ""), next + 1;
    }
  }

  /** The byte order mark is skipped only on the first line, which is that of the first entry when its
      section is the empty one. */
  predicate NoBom(entries: seq<Entry>) {
    entries != [] && entries[0].section == "" ==> !HasBom(EntryLine(entries[0]))
  }

  lemma PrintedStarts(prev: string, entries: seq<Entry>)
    requires entries != [] && |prev| < MAX_SECTION && |entries[0].section| < MAX_SECTION
    ensures Printed(prev, entries) ==
      HeaderLines(prev, entries[0].section) + (EntryLine(entries[0]) + Printed(entries[0].section, entries[1..]))
  {
    hide HeaderLines, EntryLine;
    var h, l := HeaderLines(prev, entries[0].section), EntryLine(entries[0]);
    var rest := Printed(entries[0].section, entries[1..]);
    assert h + l + rest == h + (l + rest);
  }

  lemma EntryRead(p: Parser, e: Entry, rest: string, lineno: nat, accepts: Entry -> bool) returns (q: Parser, next: nat)
    requires Printable(e) && accepts(e) && p.error == 0 && lineno > 0
    requires lineno == 1 && e.section == p.section ==> !HasBom(EntryLine(e))
    ensures AfterText(p, HeaderLines(p.section, e.section) + (EntryLine(e) + rest), lineno, accepts)
         == AfterText(q, rest, next, accepts)
    ensures q.section == e.section && q.error == 0 && q.calls == p.calls + [e] && next > 1
  {
    hide AfterText, AfterLine, HeaderLines;
    q, next := HeaderLinesRead(p, p.section, e.section, EntryLine(e) + rest, lineno, accepts);
    assert EntryLine(e) == (e.name + " = " + e.value) + "\n";
    LineRead(q, e.name + " = " + e.value, rest, next, accepts);
    EntryLineParsed(q, e, next, accepts);
    q, next := AfterLine(q, EntryLine(e), next, accepts), next + 1;
  }

  predicate AllPrintable(entries: seq<Entry>, accepts: Entry -> bool) {
    forall i :: 0 <= i < |entries| ==> Printable(entries[i]) && accepts(entries[i])
  }

  lemma TailPrintable(entries: seq<Entry>, accepts: Entry -> bool)
    requires entries != [] && AllPrintable(entries, accepts)
    ensures AllPrintable(entries[1..], accepts)
    ensures Printable(entries[0]) && accepts(entries[0]) && |entries[0].section| < MAX_SECTION
  {
  }

  lemma NothingPrinted(p: Parser, lineno: nat, accepts: Entry -> bool)
    ensures AfterText(p, Printed(p.section, []), lineno, accepts) == p
  {
  }

  lemma {:induction false} PrintedRead(p: Parser, entries: seq<Entry>, lineno: nat, accepts: Entry -> bool)
    requires AllPrintable(entries, accepts) && p.error == 0 && |p.section| < MAX_SECTION && lineno > 0
    requires lineno == 1 ==> p.section == "" && NoBom(entries)
    ensures var q := AfterText(p, Printed(p.section, entries), lineno, accepts);
      q.calls == p.calls + entries && q.error == 0
    decreases |entries|
  {
    hide AfterText, Printed, AllPrintable, Printable, HeaderLines, EntryLine, HasBom;
    if entries == [] {
      NothingPrinted(p, lineno, accepts);
      assert p.calls + [] == p.calls;
    } else {
      var e := entries[0];
      TailPrintable(entries, accepts);
      PrintedStarts(p.section, entries);
      var q, next := EntryRead(p, e, Printed(e.section, entries[1..]), lineno, accepts);
      PrintedRead(q, entries[1..], next, accepts);
      assert p.calls + [e] + entries[1..] == p.calls + entries;
    }
  }

  /** Parsing what the dumper prints for a list of entries replays the list without an error. */
  lemma RoundTrip(entries: seq<Entry>, accepts: Entry -> bool)
    requires AllPrintable(entries, accepts) && NoBom(entries)
    ensures AfterText(Initial(), Printed("", entries), 1, accepts).calls == entries
    ensures AfterText(Initial(), Printed("", entries), 1, accepts).error == 0
  {
    PrintedRead(Initial(), entries, 1, accepts);
    assert [] + entries == entries;
  }

  /** The lines of the next entry, and the rest. */
  lemma PrintedNext(entries: seq<Entry>, i: nat, out: string, prev: string)
    requires i < |entries|
    ensures var e := entries[i];
      var next := Copied(if e.section == prev then prev else e.section, MAX_SECTION);
      out + Printed(prev, entries[i..]) ==
        (out + HeaderLines(prev, e.section) + EntryLine(e)) + Printed(next, entries[i + 1..])
  {
    hide HeaderLines, EntryLine, Copied;
    assert entries[i..][1..] == entries[i + 1..];
  }

  /** The text that the dumper prints, called for each entry in turn. */
  method DumpAll(entries: seq<Entry>) returns (text: string)
    ensures text == Printed("", entries)
  {
    hide HeaderLines, EntryLine, Printed, Copied;
    var d := new Dumper();
    assert entries[0..] == entries && "" + Printed("", entries) == Printed("", entries);
    for i := 0 to |entries|
      invariant |d.prevSection| < MAX_SECTION
      invariant Printed("", entries) == d.out + Printed(d.prevSection, entries[i..])
    {
      PrintedNext(entries, i, d.out, d.prevSection);
      var result := d.Dump(entries[i].section, entries[i].name, entries[i].value);
    }
    PrintedNone(d.prevSection);
    assert entries[|entries|..] == [] && d.out + "" == d.out;
    text := d.out;
  }

  lemma PrintedNone(prev: string)
    ensures Printed(prev, []) == ""
  {
  }

  /** Dumping entries and parsing the text calls the handler with the same entries. */
  method DumpAndParse(entries: seq<Entry>, accepts: Entry -> bool) returns (error: nat, calls: seq<Entry>)
    requires AllPrintable(entries, accepts) && NoBom(entries)
    ensures error == 0 && calls == entries
  {
    var text := DumpAll(entries);
    error, calls := ParseStream(text, accepts);
    RoundTrip(entries, accepts);
  }
}
