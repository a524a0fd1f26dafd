/** What the parser makes of lines, told by their characters. */
module IniText {
  import opened Ini
  import opened IniLines

  /** A run of the white space of the C locale. */
  predicate Spaces(s: string) {
    forall i :: 0 <= i < |s| ==> s[i] in " \t\n\U{0B}\U{0C}\r"
  }

  /** Neither starts nor ends with white space. */
  predicate Tight(s: string) {
    s != "" ==> s[0] !in " \t\n\U{0B}\U{0C}\r" && s[|s| - 1] !in " \t\n\U{0B}\U{0C}\r"
  }

  /** No semicolon comes after white space. */
  predicate Uncommented(s: string) {
    forall i :: 0 < i < |s| && s[i] == ';' ==> s[i - 1] !in " \t\n\U{0B}\U{0C}\r"
  }

  predicate StartsWithBom(s: string) {
    |s| >= 3 && s[..3] == "\U{EF}\U{BB}\U{BF}"
  }

  lemma SameMeaning(s: string)
    ensures Spaces(s) <==> Blank(s)
    ensures Tight(s) <==> Trimmed(s)
    ensures Uncommented(s) <==> NoComment(s)
    ensures StartsWithBom(s) <==> HasBom(s)
  {
    SpacesAre();
    hide IsSpace;
    if StartsWithBom(s) {
      assert s[0] == s[..3][0] && s[1] == s[..3][1] && s[2] == s[..3][2];
    }
    if HasBom(s) {
      assert s[..3] == [s[0], s[1], s[2]];
    }
  }

  /** A carriage return before the newline makes no difference. */
  lemma CarriageReturn(p: Parser, s: string, lineno: nat, accepts: Entry -> bool)
    ensures AfterLine(p, s + "\r\n", lineno, accepts) == AfterLine(p, s + "\n", lineno, accepts)
  {
    hide *;
    BomBefore(s, "\r\n");
    BomBefore(s, "\n");
    SameStripped(s);
    if HasBom(s) {
      BehindBom(s, "\r\n");
      BehindBom(s, "\n");
      SameStripped(s[3..]);
    }
    StrippedDecides(p, s + "\r\n", s + "\n", lineno, accepts);
  }

  lemma BomBefore(s: string, end: string)
    requires end == "\r\n" || end == "\n"
    ensures HasBom(s + end) == HasBom(s)
  {
  }

  lemma BehindBom(s: string, end: string)
    requires HasBom(s)
    ensures |s| >= 3 && |s + end| >= 3 && (s + end)[3..] == s[3..] + end
  {
  }

  /** The parser does not look at the end of a line. */
  lemma StrippedDecides(p: Parser, a: string, b: string, lineno: nat, accepts: Entry -> bool)
    requires HasBom(a) == HasBom(b)
    requires RStripped(a) == RStripped(b)
    requires HasBom(a) ==> |a| >= 3 && |b| >= 3 && RStripped(a[3..]) == RStripped(b[3..])
    ensures AfterLine(p, a, lineno, accepts) == AfterLine(p, b, lineno, accepts)
  {
    hide RStripped, Leading, AfterSection, AfterPair, HasBom, Called;
  }

  lemma SameStripped(s: string)
    ensures RStripped(s + "\r\n") == RStripped(s + "\n")
  {
    assert IsSpace('\n') && IsSpace('\r');
    assert (s + "\n")[..|s|] == s && (s + "\r\n")[..|s| + 1] == s + "\r" && (s + "\r")[..|s|] == s;
    hide IsSpace;
  }

  /** A byte order mark at the start of the text is skipped. */
  lemma BomSkipped(p: Parser, s: string, accepts: Entry -> bool)
    requires p.prevName == "" && !StartsWithBom(s)
    ensures AfterLine(p, "\U{EF}\U{BB}\U{BF}" + s, 1, accepts) == AfterLine(p, s, 1, accepts)
  {
    var line := "\U{EF}\U{BB}\U{BF}" + s;
    assert line[..3] == "\U{EF}\U{BB}\U{BF}" && line[3..] == s;
    SameMeaning(line);
    SameMeaning(s);
    hide RStripped, Leading, AfterSection, AfterPair, HasBom, Called;
  }

  /** A line w + body + v to a parser that is not at a byte order mark. */
  ghost predicate LineOf(w: string, body: string, v: string, line: string, lineno: nat) {
    && line == w + body + v && Spaces(w) && Spaces(v) && body != "" && Tight(body)
    && (lineno == 1 ==> !StartsWithBom(line))
  }

  /** What the parser does with such a line depends on its body, and on whether it continues a value. */
  lemma BodyOf(p: Parser, w: string, body: string, v: string, line: string, lineno: nat, accepts: Entry -> bool,
      k: Kind)
    requires LineOf(w, body, v, line, lineno) && BodyMeans(body, p.prevName != "" && w != "", k)
    ensures AfterLine(p, line, lineno, accepts) == Effect(p, k, lineno, accepts)
  {
    SameMeaning(w);
    SameMeaning(v);
    SameMeaning(body);
    SameMeaning(line);
    hide BodyMeans, AfterLine, Effect, HasBom, Trimmed, Spaces, Tight;
    assert Parts(line, w, body, v);
    assert !Blank(line) by { BodyInside(w, body, v); }
    assert Text(line, lineno) == line;
    LineDoes(p, line, lineno, accepts, k);
  }

  lemma BodyInside(w: string, body: string, v: string)
    requires body != "" && Tight(body)
    ensures !Blank(w + body + v)
  {
    SpacesAre();
    hide IsSpace;
    assert (w + body + v)[|w|] == body[0];
  }

  lemma BlankLine(p: Parser, line: string, lineno: nat, accepts: Entry -> bool)
    requires Spaces(line)
    ensures AfterLine(p, line, lineno, accepts) == p
  {
    SameMeaning(line);
    assert !HasBom(line);
    hide AfterLine, HasBom;
    LineDoes(p, line, lineno, accepts, Skipped);
  }

  lemma CommentLine(p: Parser, w: string, body: string, v: string, line: string, lineno: nat, accepts: Entry -> bool)
    requires LineOf(w, body, v, line, lineno) && body[0] in ";#"
    ensures AfterLine(p, line, lineno, accepts) == p
  {
    BodyOf(p, w, body, v, line, lineno, accepts, Skipped);
  }

  /** An indented line after a name goes to the handler as a whole, under that name. */
  lemma ContinuationLine(p: Parser, w: string, body: string, v: string, line: string, lineno: nat,
      accepts: Entry -> bool)
    requires LineOf(w, body, v, line, lineno) && body[0] !in ";#" && p.prevName != "" && w != ""
    ensures AfterLine(p, line, lineno, accepts) == Told(p, p.prevName, body, lineno, accepts)
  {
    hide AfterLine;
    BodyOf(p, w, body, v, line, lineno, accepts, Continued(body));
  }

  /** The handler is called with name and value; the first call that it rejects sets the error. */
  function Told(p: Parser, name: string, value: string, lineno: nat, accepts: Entry -> bool): Parser {
    var e := Entry(p.section, name, value);
    Parser(p.section, p.prevName, if p.error == 0 && !accepts(e) then lineno else p.error, p.calls + [e])
  }

  /** A section line; what follows the bracket is ignored. Of the name the first 49 characters are kept. */
  lemma SectionLine(p: Parser, w: string, name: string, rest: string, v: string, line: string, lineno: nat,
      accepts: Entry -> bool)
    requires LineOf(w, "[" + name + "]" + rest, v, line, lineno) && ']' !in name && Uncommented(name)
    requires p.prevName == "" || w == ""
    ensures AfterLine(p, line, lineno, accepts) ==
      Parser(if |name| < 50 then name else name[..49], "", p.error, p.calls)
  {
    hide AfterLine;
    SameMeaning(name);
    var body := "[" + name + "]" + rest;
    assert SectionOf(body, name);
    BodyOf(p, w, body, v, line, lineno, accepts, Section(name));
  }

  predicate NameChars(name: string) {
    name != "" && Tight(name) && Uncommented(name) && '=' !in name && ':' !in name && name[0] !in "[;#"
  }

  /** A value, and after it perhaps white space and a comment. */
  predicate ValueChars(value: string, gap: string, comment: string) {
    && Tight(value) && Uncommented(value) && Spaces(gap) && Tight(comment)
    && (if comment == "" then gap == "" else value != "" && gap != "" && comment[0] == ';')
  }

  /** A pair: name, separator, value and comment, with any white space between them and around. */
  lemma PairLine(p: Parser, w: string, name: string, x: string, sep: char, y: string, value: string, gap: string,
      comment: string, v: string, line: string, lineno: nat, accepts: Entry -> bool)
    requires Spaces(w) && Spaces(x) && Spaces(y) && Spaces(v) && NameChars(name) && sep in "=:"
    requires ValueChars(value, gap, comment) && (p.prevName == "" || w == "")
    requires line == w + name + x + [sep] + y + value + gap + comment + v && (lineno == 1 ==> !StartsWithBom(line))
    ensures AfterLine(p, line, lineno, accepts) ==
      Told(p, name, value, lineno, accepts).(prevName := if |name| < 50 then name else name[..49])
  {
    hide *;
    PairBody(name, x, sep, y, value, gap, comment);
    var after := y + value + gap + comment;
    if value == "" {
      NothingAfter(y, value, gap, comment);
      SpacesJoin(y, v);
      Regroup(line, w, name, x, sep, y, v);
      BarePair(p, w, name, x, sep, y + v, line, lineno, accepts);
    } else {
      Gathered(line, w, name, x, sep, y, value, gap, comment, v);
      FullPair(p, w, name, x, sep, after, value, v, line, lineno, accepts);
    }
    ToldPair(p, name, value, lineno, accepts);
  }

  lemma Regroup(line: string, w: string, name: string, x: string, sep: char, y: string, v: string)
    requires line == w + name + x + [sep] + y + v
    ensures line == w + (name + x + [sep]) + (y + v)
  {
  }

  lemma Gathered(line: string, w: string, name: string, x: string, sep: char, y: string, value: string, gap: string,
      comment: string, v: string)
    requires line == w + name + x + [sep] + y + value + gap + comment + v
    ensures line == w + (name + x + [sep] + (y + value + gap + comment)) + v
  {
  }

  lemma ToldPair(p: Parser, name: string, value: string, lineno: nat, accepts: Entry -> bool)
    ensures Effect(p, Pair(name, value), lineno, accepts) ==
      Told(p, name, value, lineno, accepts).(prevName := if |name| < 50 then name else name[..49])
  {
  }

  lemma BarePair(p: Parser, w: string, name: string, x: string, sep: char, v: string, line: string, lineno: nat,
      accepts: Entry -> bool)
    requires Spaces(w) && Spaces(x) && Spaces(v) && NameChars(name) && sep in "=:" && ValueOf("", "")
    requires Tight(name + x + [sep]) && (p.prevName == "" || w == "")
    requires line == w + (name + x + [sep]) + v && (lineno == 1 ==> !StartsWithBom(line))
    ensures AfterLine(p, line, lineno, accepts) == Effect(p, Pair(name, ""), lineno, accepts)
  {
    var body := name + x + [sep];
    assert LineOf(w, body, v, line, lineno);
    hide AfterLine, LineOf, Effect, BodyMeans, NameChars, ValueOf, Tight, Spaces, StartsWithBom;
    PairKind(name, x, sep, "", "", body);
    BodyOf(p, w, body, v, line, lineno, accepts, Pair(name, ""));
  }

  lemma FullPair(p: Parser, w: string, name: string, x: string, sep: char, after: string, value: string, v: string,
      line: string, lineno: nat, accepts: Entry -> bool)
    requires Spaces(w) && Spaces(x) && Spaces(v) && NameChars(name) && sep in "=:" && ValueOf(after, value)
    requires Tight(name + x + [sep] + after) && (p.prevName == "" || w == "")
    requires line == w + (name + x + [sep] + after) + v && (lineno == 1 ==> !StartsWithBom(line))
    ensures AfterLine(p, line, lineno, accepts) == Effect(p, Pair(name, value), lineno, accepts)
  {
    var body := name + x + [sep] + after;
    assert LineOf(w, body, v, line, lineno);
    hide AfterLine, LineOf, Effect, BodyMeans, NameChars, ValueOf, Tight, Spaces, StartsWithBom;
    PairKind(name, x, sep, after, value, body);
    BodyOf(p, w, body, v, line, lineno, accepts, Pair(name, value));
  }

  lemma SpacesJoin(a: string, b: string)
    requires Spaces(a) && Spaces(b)
    ensures Spaces(a + b)
  {
  }

  lemma NothingAfter(y: string, value: string, gap: string, comment: string)
    requires ValueChars(value, gap, comment) && value == ""
    ensures y + value + gap + comment == y
  {
  }

  /** The body of the line has no white space around it, and its value is what follows the separator. */
  lemma PairBody(name: string, x: string, sep: char, y: string, value: string, gap: string, comment: string)
    requires NameChars(name) && Spaces(x) && Spaces(y) && sep in "=:" && ValueChars(value, gap, comment)
    ensures name != "" && Tight(name + x + [sep])
    ensures ValueOf("", "")
    ensures value != "" ==> Tight(name + x + [sep] + (y + value + gap + comment))
    ensures value != "" ==> ValueOf(y + value + gap + comment, value)
  {
    if value != "" {
      SameMeaning(y);
      SameMeaning(gap);
      SameMeaning(value);
      var after := y + value + gap + comment;
      LastChar(y + value, gap, comment);
      hide Spaces, Tight, Uncommented, Blank, Trimmed, NoComment;
      ValueInside(after, y, value, gap, comment);
    }
  }

  lemma LastChar(a: string, gap: string, comment: string)
    requires a != "" && a[|a| - 1] !in " \t\n\U{0B}\U{0C}\r" && Tight(comment) && (comment == "" ==> gap == "")
    ensures var s := a + gap + comment; s[|s| - 1] !in " \t\n\U{0B}\U{0C}\r"
  {
  }

  lemma ValueInside(after: string, y: string, value: string, gap: string, comment: string)
    requires after == y + value + gap + comment && Blank(y) && Blank(gap) && value != "" && Trimmed(value)
    requires NoComment(value) && (comment != "" ==> gap != "" && comment[0] == ';')
    ensures ValueOf(after, value)
  {
    assert ValueParts(after, y, value, gap, comment);
    assert after[|y|] == value[0];
    NotAllBlank(after, |y|);
    PartsValue(after, y, value, gap, comment);
  }

  lemma PairKind(name: string, x: string, sep: char, after: string, value: string, body: string)
    requires NameChars(name) && Spaces(x) && sep in "=:" && body == name + x + [sep] + after && ValueOf(after, value)
    ensures body != "" && body[0] == name[0] && BodyMeans(body, false, Pair(name, value))
  {
    var n := |name + x|;
    assert body[..n] == name + x && body[n + 1..] == after && body[n] == sep;
    SameMeaning(name);
    SameMeaning(x);
    SameMeaning(name + x);
    KeyChars(name, x);
    assert NameOf(name + x, name) by {
      assert (name + x)[|name|..] == x;
      SpacesAre();
      hide IsSpace;
    }
    hide ValueOf;
    assert PairAt(body, n, name, value);
  }

  lemma KeyChars(name: string, x: string)
    requires NameChars(name) && Spaces(x)
    ensures Uncommented(name + x) && '=' !in name + x && ':' !in name + x
  {
  }

  /** A line without separator that is no section line is an error. */
  lemma LineWithoutSeparator(p: Parser, w: string, body: string, v: string, line: string, lineno: nat,
      accepts: Entry -> bool)
    requires LineOf(w, body, v, line, lineno) && body[0] !in "[;#" && '=' !in body && ':' !in body
    requires p.prevName == "" || w == ""
    ensures AfterLine(p, line, lineno, accepts) == p.(error := if p.error == 0 then lineno else p.error)
  {
    hide AfterLine;
    BodyOf(p, w, body, v, line, lineno, accepts, Bad);
  }

  /** The line is the start of a text: up to the first newline, or 199 characters, or the whole text. */
  predicate FirstLine(text: string, line: string, rest: string) {
    && text == line + rest && 0 < |line| <= 199 && (forall i :: 0 <= i < |line| - 1 ==> line[i] != '\n')
    && (line[|line| - 1] == '\n' || |line| == 199 || rest == "")
  }

  /** The lines of a text, each without what follows its first NUL. */
  lemma LinesAre(text: string, line: string, rest: string, shown: string, hidden: string)
    requires FirstLine(text, line, rest)
    requires line == shown + hidden && '\0' !in shown && (hidden != "" ==> hidden[0] == '\0')
    ensures Lines(text) == [shown] + Lines(rest) && Lines("") == []
  {
    LineFound(text, line, rest, Line(text, INI_MAX_LINE - 1));
    ShownIs(line, shown, hidden);
    hide Line, CString;
    assert text[|line|..] == rest;
  }

  lemma LineFound(text: string, line: string, rest: string, r: string)
    requires FirstLine(text, line, rest) && r == Line(text, INI_MAX_LINE - 1)
    ensures r == line
  {
    hide Line;
    assert forall i :: 0 <= i < |r| ==> r[i] == text[i];
    assert forall i :: 0 <= i < |line| ==> line[i] == text[i];
    if |r| < |line| {
      assert false;
    } else if |r| > |line| {
      assert false;
    }
    assert line == text[..|line|] == r;
  }

  lemma ShownIs(line: string, shown: string, hidden: string)
    requires line == shown + hidden && '\0' !in shown && (hidden != "" ==> hidden[0] == '\0')
    ensures CString(line) == shown
  {
    hide CString;
    var r := CString(line);
    assert forall i :: 0 <= i < |r| ==> r[i] == line[i] && r[i] != '\0';
    assert |shown| < |line| ==> line[|shown|] == hidden[0];
    assert forall i :: 0 <= i < |shown| ==> line[i] == shown[i];
    if |r| < |shown| {
      assert false;
    } else if |r| > |shown| {
      assert false;
    }
  }
}
