/** What each line of an INI text is, told by its parts, what the parser does with it, and which line a parse
    reports as its first error. */
module IniLines {
  import opened Ini

  /** A blank or comment line, a line that continues the value of the previous name, a section line, a line
      with a name and a value, or none of these. */
  datatype Kind =
    | Skipped
    | Continued(value: string)
    | Section(name: string)
    | Pair(name: string, value: string)
    | Bad

  predicate Blank(s: string) {
    forall i :: 0 <= i < |s| ==> IsSpace(s[i])
  }

  /** body is the line without the white space around it. */
  predicate Parts(line: string, lead: string, body: string, trail: string) {
    line == lead + body + trail && Blank(lead) && Blank(trail) && body != "" && Trimmed(body)
  }

  /** What the line is; after a name, a line that is indented continues. */
  ghost predicate Means(line: string, named: bool, bom: bool, k: Kind) {
    if Blank(line) then k == Skipped
    else exists lead, body, trail :: Parts(line, lead, body, trail) && BodyMeans(body, named && (bom || lead != ""), k)
  }

  ghost predicate BodyMeans(body: string, continues: bool, k: Kind)
    requires body != ""
  {
    if body[0] == ';' || body[0] == '#' then k == Skipped
    else if continues then k == Continued(body)
    else match k
      case Section(name) => SectionOf(body, name)
      case Pair(name, value) => body[0] != '[' && exists n :: PairAt(body, n, name, value)
      case Bad => if body[0] == '[' then NoSection(body) else NoPair(body)
      case _ => false
  }

  /** The first bracket that closes comes before any inline comment. */
  predicate SectionOf(body: string, name: string) {
    "[" + name + "]" <= body && ']' !in name && NoComment(name)
  }

  ghost predicate NoSection(body: string) {
    forall name :: !SectionOf(body, name)
  }

  /** The first separator, which comes before any inline comment, is at n. */
  predicate SeparatorAt(body: string, n: nat) {
    n < |body| && body[n] in "=:" && '=' !in body[..n] && ':' !in body[..n] && NoComment(body[..n])
  }

  ghost predicate NoPair(body: string) {
    forall n :: !SeparatorAt(body, n)
  }

  /** The name ends before the white space in front of the separator; the value is what follows, without white
      space around it, up to an inline comment. */
  ghost predicate PairAt(body: string, n: nat, name: string, value: string) {
    SeparatorAt(body, n) && NameOf(body[..n], name) && ValueOf(body[n + 1..], value)
  }

  predicate NameOf(key: string, name: string) {
    name <= key && Blank(key[|name|..]) && (name != "" ==> !IsSpace(name[|name| - 1]))
  }

  ghost predicate ValueOf(after: string, value: string) {
    if Blank(after) then value == ""
    else exists lead, gap, comment :: ValueParts(after, lead, value, gap, comment)
  }

  predicate ValueParts(after: string, lead: string, value: string, gap: string, comment: string) {
    && after == lead + value + gap + comment && Blank(lead) && Blank(gap)
    && value != "" && Trimmed(value) && NoComment(value)
    && (comment != "" ==> gap != "" && comment[0] == ';')
  }

  /** What the parser does with a line of each kind. */
  function Effect(p: Parser, k: Kind, lineno: nat, accepts: Entry -> bool): Parser {
    match k
    case Skipped => p
    case Continued(value) => Called(p, Entry(p.section, p.prevName, value), lineno, accepts)
    case Section(name) => p.(section := Copied(name, MAX_SECTION), prevName := "")
    case Pair(name, value) =>
      Called(p.(prevName := Copied(name, MAX_NAME)), Entry(p.section, name, value), lineno, accepts)
    case Bad => Failed(p, lineno)
  }

  function Text(line: string, lineno: nat): string {
    if lineno == 1 && HasBom(line) then line[3..] else line
  }

  /** The line is of this kind to a parser in state p. */
  ghost predicate IsKind(p: Parser, line: string, lineno: nat, k: Kind) {
    Means(Text(line, lineno), p.prevName != "", lineno == 1 && HasBom(line), k)
  }

  lemma BlankStart(s: string)
    requires Blank(s)
    ensures RStripped(s) == "" && Leading("") == 0
  {
    StripsTo(s, "");
  }

  lemma PartsStart(line: string, lead: string, body: string, trail: string)
    requires Parts(line, lead, body, trail)
    ensures RStripped(line) == lead + body && Leading(lead + body) == |lead| && (lead + body)[|lead|..] == body
  {
    assert line == (lead + body) + trail;
    StripsTo(line, lead + body);
    LeadsWith(lead + body, |lead|);
  }

  lemma SectionDoes(p: Parser, body: string, name: string, lineno: nat)
    requires SectionOf(body, name)
    ensures body != "" && AfterSection(p, body[1..], lineno) == p.(section := Copied(name, MAX_SECTION), prevName := "")
  {
    var rest, n := body[1..], |name|;
    assert body[..n + 2] == "[" + name + "]";
    forall i | 0 <= i < n + 1
      ensures rest[i] == (name + "]")[i]
    {
      assert body[..n + 2][i + 1] == (name + "]")[i];
    }
    assert rest[..n] == name;
    forall i | 0 <= i < n
      ensures !StopsAt(rest, "]", i)
    {
      assert rest[i] == name[i];
      assert i > 0 ==> rest[i - 1] == name[i - 1];
    }
    FoundAt(rest, "]", n);
  }

  lemma NoSectionDoes(p: Parser, body: string, lineno: nat)
    requires body != "" && body[0] == '[' && NoSection(body)
    ensures AfterSection(p, body[1..], lineno) == Failed(p, lineno)
  {
    var rest := body[1..];
    var n := Found(rest, "]");
    if n < |rest| && rest[n] == ']' {
      FoundSection(body, n);
      assert false;
    }
  }

  lemma FoundSection(body: string, n: nat)
    requires body != "" && body[0] == '[' && n == Found(body[1..], "]") && n < |body| - 1 && body[n + 1] == ']'
    ensures SectionOf(body, body[1..][..n])
  {
    var rest := body[1..];
    var name := rest[..n];
    forall i | 0 <= i < n
      ensures name[i] != ']' && !(i > 0 && IsSpace(name[i - 1]) && name[i] == ';')
    {
      assert !StopsAt(rest, "]", i);
    }
    assert "[" + name + "]" == body[..n + 2];
  }

  lemma SeparatorFound(body: string, n: nat)
    ensures SeparatorAt(body, n) <==> n < |body| && n == Found(body, "=:") && body[n] in "=:"
  {
    if SeparatorAt(body, n) {
      forall i | 0 <= i < n
        ensures !StopsAt(body, "=:", i)
      {
        assert body[i] == body[..n][i];
        assert i > 0 ==> body[i - 1] == body[..n][i - 1];
      }
      FoundAt(body, "=:", n);
    }
    if n < |body| && n == Found(body, "=:") && body[n] in "=:" {
      forall i | 0 <= i < n
        ensures body[i] !in "=:" && !(i > 0 && IsSpace(body[i - 1]) && body[i] == ';')
      {
        assert !StopsAt(body, "=:", i);
      }
    }
  }

  /** The value as the parser computes it. */
  function Value(after: string): string {
    var value := after[Leading(after)..];
    RStripped(value[..Found(value, "")])
  }

  lemma ValueFound(after: string, value: string)
    requires ValueOf(after, value)
    ensures Value(after) == value
  {
    if Blank(after) {
      LeadsWith(after, |after|);
      FoundAt("", "", 0);
    } else {
      var lead, gap, comment :| ValueParts(after, lead, value, gap, comment);
      ValuePartsFound(after, lead, value, gap, comment);
    }
  }

  lemma ValuePartsFound(after: string, lead: string, value: string, gap: string, comment: string)
    requires ValueParts(after, lead, value, gap, comment)
    ensures Value(after) == value
  {
    LeadsWith(after, |lead|);
    var whole := after[|lead|..];
    assert whole == (value + gap) + comment;
    forall i | 0 <= i < |value + gap|
      ensures !StopsAt(whole, "", i)
    {
      assert whole[i] == (value + gap)[i];
    }
    FoundAt(whole, "", |value + gap|);
    assert whole[..|value + gap|] == value + gap;
    StripsTo(value + gap, value);
  }

  lemma ValueExists(after: string)
    ensures ValueOf(after, Value(after))
  {
    hide Blank, Trimmed, NoComment, ValueOf, Found, Leading, RStripped;
    var n := Leading(after);
    if n == |after| {
      LeadBlank(after);
      assert after[..n] == after;
      assert ValueOf(after, "") by { BlankValue(after); }
      ValueFound(after, "");
    } else {
      var whole := after[n..];
      var e := Found(whole, "");
      ValueStarts(whole);
      LeadBlank(after);
      GapBlank(whole[..e], Value(after), whole[..e][|Value(after)|..]);
      ValueGiven(after, n, e, Value(after));
    }
  }

  lemma BlankValue(after: string)
    requires Blank(after)
    ensures ValueOf(after, "")
  {
  }

  lemma ValueGiven(after: string, n: nat, e: nat, value: string)
    requires n < |after| && !IsSpace(after[n]) && Blank(after[..n]) && e <= |after| - n && value <= after[n..][..e]
    requires value != "" && Trimmed(value) && NoComment(value) && Blank(after[n..][..e][|value|..])
    requires e < |after[n..]| ==> after[n..][e] == ';' && |value| < e
    ensures ValueOf(after, value)
  {
    hide Blank, Trimmed, NoComment, IsSpace;
    var whole := after[n..];
    ValueJoined(after, n, |value|, e);
    NotAllBlank(after, n);
    PartsValue(after, after[..n], value, whole[|value|..e], whole[e..]);
  }

  lemma PartsValue(after: string, lead: string, value: string, gap: string, comment: string)
    requires ValueParts(after, lead, value, gap, comment) && !Blank(after)
    ensures ValueOf(after, value)
  {
  }

  lemma NotAllBlank(s: string, n: nat)
    requires n < |s| && !IsSpace(s[n])
    ensures !Blank(s)
  {
  }

  lemma LeadBlank(s: string)
    ensures Blank(s[..Leading(s)])
  {
  }

  lemma GapBlank(s: string, r: string, gap: string)
    requires r == RStripped(s) && gap == s[|r|..]
    ensures Blank(gap)
  {
  }

  lemma ValueJoined(after: string, n: nat, v: nat, e: nat)
    requires n <= |after| && v <= e <= |after| - n
    ensures var whole := after[n..];
      && whole[v..e] == whole[..e][v..] && whole[..e][..v] == whole[..v]
      && after == after[..n] + whole[..v] + whole[v..e] + whole[e..]
  {
  }

  lemma ValueStarts(whole: string)
    requires whole != "" && !IsSpace(whole[0])
    ensures var e := Found(whole, ""); var value := RStripped(whole[..e]);
      && 0 < e <= |whole| && value <= whole[..e] && value != "" && value[0] == whole[0]
      && NoComment(value) && Trimmed(value)
      && (e < |whole| ==> whole[e] == ';' && |value| < e)
  {
    var e := Found(whole, "");
    assert !StopsAt(whole, "", 0);
    var value := RStripped(whole[..e]);
    assert whole[..e][0] == whole[0];
    if value == "" {
      assert false;
    }
    forall i | 0 < i < |value|
      ensures !(IsSpace(value[i - 1]) && value[i] == ';')
    {
      assert !StopsAt(whole, "", i);
    }
    if e < |whole| {
      assert StopsAt(whole, "", e) && IsSpace(whole[e - 1]);
    }
  }

  lemma PairDoes(p: Parser, body: string, n: nat, name: string, value: string, lineno: nat, accepts: Entry -> bool)
    requires PairAt(body, n, name, value)
    ensures AfterPair(p, body, lineno, accepts) == Effect(p, Pair(name, value), lineno, accepts)
  {
    hide Found, RStripped, Leading, ValueOf, SeparatorAt, Called;
    SeparatorFound(body, n);
    NameFound(body[..n], name);
    ValueFound(body[n + 1..], value);
  }

  lemma NameFound(key: string, name: string)
    requires NameOf(key, name)
    ensures RStripped(key) == name
  {
    forall i | |name| <= i < |key|
      ensures IsSpace(key[i])
    {
      assert key[i] == key[|name|..][i - |name|];
    }
    StripsTo(key, name);
  }

  lemma NoPairDoes(p: Parser, body: string, lineno: nat, accepts: Entry -> bool)
    requires NoPair(body)
    ensures AfterPair(p, body, lineno, accepts) == Failed(p, lineno)
  {
    var n := Found(body, "=:");
    SeparatorFound(body, n);
    hide Found;
  }

  /** What the parser does with a line without the white space around it. */
  lemma BodyDoes(p: Parser, body: string, continues: bool, k: Kind, lineno: nat, accepts: Entry -> bool)
    requires body != "" && BodyMeans(body, continues, k)
    ensures Effect(p, k, lineno, accepts) ==
      if body[0] == ';' || body[0] == '#' then p
      else if continues then Called(p, Entry(p.section, p.prevName, body), lineno, accepts)
      else if body[0] == '[' then AfterSection(p, body[1..], lineno)
      else AfterPair(p, body, lineno, accepts)
  {
    hide AfterSection, AfterPair, PairAt, SectionOf, NoSection, NoPair, Called;
    if body[0] != ';' && body[0] != '#' && !continues {
      match k
      case Section(name) =>
        SectionBracket(body, name);
        SectionDoes(p, body, name, lineno);
      case Pair(name, value) =>
        var n :| PairAt(body, n, name, value);
        PairDoes(p, body, n, name, value, lineno, accepts);
      case Bad =>
        if body[0] == '[' {
          NoSectionDoes(p, body, lineno);
        } else {
          NoPairDoes(p, body, lineno, accepts);
        }
      case _ =>
    }
  }

  lemma SectionBracket(body: string, name: string)
    requires SectionOf(body, name)
    ensures body != "" && body[0] == '['
  {
  }

  /** The parser does with a line what its kind says. */
  lemma LineDoes(p: Parser, line: string, lineno: nat, accepts: Entry -> bool, k: Kind)
    requires IsKind(p, line, lineno, k)
    ensures AfterLine(p, line, lineno, accepts) == Effect(p, k, lineno, accepts)
  {
    hide RStripped, Leading, BodyMeans, AfterSection, AfterPair, HasBom, Called;
    var text, bom, named := Text(line, lineno), lineno == 1 && HasBom(line), p.prevName != "";
    if Blank(text) {
      BlankStart(text);
    } else {
      var lead, body, trail :| Parts(text, lead, body, trail) && BodyMeans(body, named && (bom || lead != ""), k);
      PartsStart(text, lead, body, trail);
      BodyDoes(p, body, named && (bom || lead != ""), k, lineno, accepts);
    }
  }

  lemma BodyHasKind(body: string, continues: bool) returns (k: Kind)
    requires body != ""
    ensures BodyMeans(body, continues, k)
  {
    hide PairAt, SectionOf;
    if body[0] == ';' || body[0] == '#' {
      k := Skipped;
    } else if continues {
      k := Continued(body);
    } else if body[0] == '[' {
      if name :| SectionOf(body, name) {
        k := Section(name);
      } else {
        k := Bad;
      }
    } else if n :| SeparatorAt(body, n) {
      var name, value := PairExists(body, n);
      k := Pair(name, value);
    } else {
      k := Bad;
    }
  }

  lemma PairExists(body: string, n: nat) returns (name: string, value: string)
    requires SeparatorAt(body, n)
    ensures PairAt(body, n, name, value)
  {
    hide Value, ValueOf;
    name, value := RStripped(body[..n]), Value(body[n + 1..]);
    ValueExists(body[n + 1..]);
  }

  /** Every line is of some kind. */
  lemma LineHasKind(p: Parser, line: string, lineno: nat) returns (k: Kind)
    ensures IsKind(p, line, lineno, k)
  {
    hide BodyMeans, HasBom;
    var text, bom, named := Text(line, lineno), lineno == 1 && HasBom(line), p.prevName != "";
    if Blank(text) {
      k := Skipped;
    } else {
      var lead, body, trail := PartsExist(text);
      k := BodyHasKind(body, named && (bom || lead != ""));
    }
  }

  lemma PartsExist(text: string) returns (lead: string, body: string, trail: string)
    requires !Blank(text)
    ensures Parts(text, lead, body, trail)
  {
    hide RStripped, Leading;
    var stripped := RStripped(text);
    var n := Leading(stripped);
    lead, body, trail := stripped[..n], stripped[n..], text[|stripped|..];
    assert text == lead + body + trail;
    NotBlank(text);
    LeadBlank(stripped);
    GapBlank(text, stripped, trail);
    hide Blank;
  }

  lemma NotBlank(text: string)
    requires !Blank(text)
    ensures Leading(RStripped(text)) < |RStripped(text)|
  {
    var stripped := RStripped(text);
    assert forall i :: 0 <= i < |stripped| ==> text[i] == stripped[i];
  }

  /** The lines of a text, as fgets cuts them and C reads them. */
  function Lines(text: string): seq<string>
    decreases |text|
  {
    if text == "" then []
    else
      var line := Line(text, INI_MAX_LINE - 1);
      [CString(line)] + Lines(text[|line|..])
  }

  /** The parser after these lines, the first of which has number lineno. */
  function AfterLines(p: Parser, lines: seq<string>, lineno: nat, accepts: Entry -> bool): Parser {
    if lines == [] then p
    else
      var n := |lines| - 1;
      AfterLine(AfterLines(p, lines[..n], lineno, accepts), lines[n], lineno + n, accepts)
  }

  lemma {:induction false} OneLineMore(p: Parser, line: string, lines: seq<string>, lineno: nat, accepts: Entry -> bool)
    ensures AfterLines(p, [line] + lines, lineno, accepts) ==
      AfterLines(AfterLine(p, line, lineno, accepts), lines, lineno + 1, accepts)
  {
    hide AfterLine;
    var n := |lines|;
    if n == 0 {
      assert [line] + lines == [line] && [line][..0] == [];
      assert AfterLines(p, [line][..0], lineno, accepts) == p;
    } else {
      OneLineMore(p, line, lines[..n - 1], lineno, accepts);
      assert ([line] + lines)[..n] == [line] + lines[..n - 1];
      assert ([line] + lines)[n] == lines[n - 1];
    }
  }

  lemma {:induction false} TextIsLines(p: Parser, text: string, lineno: nat, accepts: Entry -> bool)
    ensures AfterText(p, text, lineno, accepts) == AfterLines(p, Lines(text), lineno, accepts)
    decreases |text|
  {
    hide AfterLine, CString;
    if text != "" {
      var line := Line(text, INI_MAX_LINE - 1);
      var q := AfterLine(p, CString(line), lineno, accepts);
      TextIsLines(q, text[|line|..], lineno + 1, accepts);
      OneLineMore(p, CString(line), Lines(text[|line|..]), lineno, accepts);
    }
  }

  predicate Rejected(p: Parser, k: Kind, accepts: Entry -> bool) {
    match k
    case Continued(value) => !accepts(Entry(p.section, p.prevName, value))
    case Pair(name, value) => !accepts(Entry(p.section, name, value))
    case Bad => true
    case _ => false
  }

  /** The line is none that the parser knows, or the handler rejects its entry. */
  ghost predicate BadLine(p: Parser, line: string, lineno: nat, accepts: Entry -> bool) {
    exists k :: IsKind(p, line, lineno, k) && Rejected(p, k, accepts)
  }

  lemma EffectError(p: Parser, k: Kind, lineno: nat, accepts: Entry -> bool)
    ensures Effect(p, k, lineno, accepts).error == if p.error == 0 && Rejected(p, k, accepts) then lineno else p.error
  {
  }

  lemma LineError(p: Parser, line: string, lineno: nat, accepts: Entry -> bool)
    requires lineno > 0
    ensures AfterLine(p, line, lineno, accepts).error ==
      if p.error == 0 && BadLine(p, line, lineno, accepts) then lineno else p.error
  {
    hide AfterLine, Effect, IsKind, Rejected;
    var k := LineHasKind(p, line, lineno);
    LineDoes(p, line, lineno, accepts, k);
    EffectError(p, k, lineno, accepts);
    if j :| IsKind(p, line, lineno, j) && Rejected(p, j, accepts) {
      LineDoes(p, line, lineno, accepts, j);
      EffectError(p, j, lineno, accepts);
    }
  }

  /** The line of this index is bad where it stands. */
  ghost predicate BadAt(p: Parser, lines: seq<string>, i: nat, lineno: nat, accepts: Entry -> bool)
    requires i < |lines|
  {
    BadLine(AfterLines(p, lines[..i], lineno, accepts), lines[i], lineno + i, accepts)
  }

  /** error is the number of the first bad line, or 0 if none is bad. */
  ghost predicate IsFirstBad(p: Parser, lines: seq<string>, lineno: nat, accepts: Entry -> bool, error: nat) {
    if error == 0 then forall i :: 0 <= i < |lines| ==> !BadAt(p, lines, i, lineno, accepts)
    else (
      && lineno <= error < lineno + |lines| && BadAt(p, lines, error - lineno, lineno, accepts)
      && forall i :: 0 <= i < error - lineno ==> !BadAt(p, lines, i, lineno, accepts)
    )
  }

  lemma {:induction false} FirstBadLine(p: Parser, lines: seq<string>, lineno: nat, accepts: Entry -> bool)
    requires p.error == 0 && lineno > 0
    ensures IsFirstBad(p, lines, lineno, accepts, AfterLines(p, lines, lineno, accepts).error)
  {
    hide AfterLine, BadLine;
    if lines != [] {
      var n := |lines| - 1;
      FirstBadLine(p, lines[..n], lineno, accepts);
      LineError(AfterLines(p, lines[..n], lineno, accepts), lines[n], lineno + n, accepts);
      forall i | 0 <= i < n
        ensures BadAt(p, lines, i, lineno, accepts) <==> BadAt(p, lines[..n], i, lineno, accepts)
      {
        assert lines[..n][..i] == lines[..i];
      }
    }
  }

  /** The result of a parse is the number of its first bad line, or 0 if none is bad. */
  lemma ResultIsFirstBadLine(text: string, accepts: Entry -> bool)
    ensures IsFirstBad(Initial(), Lines(text), 1, accepts, AfterText(Initial(), text, 1, accepts).error)
  {
    TextIsLines(Initial(), text, 1, accepts);
    FirstBadLine(Initial(), Lines(text), 1, accepts);
  }
}
