/** SCIM user filters: `attribute eq literal` clauses, their parser, and the printer it undoes. */
module ScimFilter {
  import opened Prelude
  import opened FilterSplitter

  datatype Attribute = UserName | ExternalId

  datatype Clause = Clause(attribute: Attribute, value: string)

  const USER_NAME: string := "username"
  const EXTERNAL_ID: string := "externalid"
  const EQ: string := "eq"

  function WordOf(a: Attribute): string {
    match a
    case UserName => USER_NAME
    case ExternalId => EXTERNAL_ID
  }

  function Lower(ch: char): char {
    if 'A' <= ch <= 'Z' then (ch as int + 32) as char else ch
  }

  /** `s` is the word, in any case. */
  predicate SameWord(s: string, word: string) {
    |s| == |word| && forall i :: 0 <= i < |s| ==> Lower(s[i]) == word[i]
  }

  /** What follows the word at the start of `s`. */
  function TakeWord(s: string, word: string): Option<string> {
    if |s| >= |word| && SameWord(s[..|word|], word) then Some(s[|word|..]) else None
  }

  function TakeAttribute(s: string): Option<(Attribute, string)> {
    match TakeWord(s, USER_NAME)
    case Some(rest) => Some((UserName, rest))
    case None =>
      match TakeWord(s, EXTERNAL_ID)
      case Some(rest) => Some((ExternalId, rest))
      case None => None
  }

  // ---------------------------------------------------------------- string literals

  const HEX: string := "0123456789abcdef"

  function HexDigit(d: nat): char
    requires d < 16
  {
    HEX[d]
  }

  function HexValue(ch: char): Option<nat> {
    if '0' <= ch <= '9' then Some(ch as nat - '0' as nat)
    else if 'a' <= ch <= 'f' then Some(ch as nat - 'a' as nat + 10)
    else if 'A' <= ch <= 'F' then Some(ch as nat - 'A' as nat + 10)
    else None
  }

  function HexCode(s: string): Option<nat>
    requires |s| == 4
  {
    match (HexValue(s[0]), HexValue(s[1]), HexValue(s[2]), HexValue(s[3]))
    case (Some(a), Some(b), Some(c), Some(d)) => Some(((a * 16 + b) * 16 + c) * 16 + d)
    case _ => None
  }

  /** The two halves of a character beyond the basic plane. */
  predicate IsHigh(code: nat) { 0xd800 <= code < 0xdc00 }

  predicate IsLow(code: nat) { 0xdc00 <= code < 0xe000 }

  /** The character written by its code at the start of `s`, and how much of `s` writes it; half a character is none. */
  function CodedChar(s: string): (coded: Option<(char, nat)>)
    requires |s| >= 6
    ensures coded.Some? ==> 6 <= coded.value.1 <= |s|
  {
    match HexCode(s[2..6])
    case None => None
    case Some(code) =>
      if code < 0xd800 || 0xe000 <= code < 0x10000 then Some((code as char, 6))
      else if IsHigh(code) && |s| >= 12 && s[6] == '\\' && s[7] == 'u' && HexCode(s[8..12]).Some?
        && IsLow(HexCode(s[8..12]).value)
      then Some(((0x10000 + (code - 0xd800) * 1024 + (HexCode(s[8..12]).value - 0xdc00)) as char, 12))
      else None
  }

  function Push(ch: char, rest: Option<string>): Option<string> {
    match rest
    case None => None
    case Some(s) => Some([ch] + s)
  }

  /** The characters between the quotes of a JSON string. */
  function Decode(s: string): Option<string> {
    if s == "" then Some("")
    else if s[0] == '"' || s[0] < ' ' then None
    else if s[0] != '\\' then Push(s[0], Decode(s[1..]))
    else if |s| == 1 then None
    else
      match s[1]
      case '"' => Push('"', Decode(s[2..]))
      case '\\' => Push('\\', Decode(s[2..]))
      case '/' => Push('/', Decode(s[2..]))
      case 'b' => Push('\U{8}', Decode(s[2..]))
      case 'f' => Push('\U{c}', Decode(s[2..]))
      case 'n' => Push('\n', Decode(s[2..]))
      case 'r' => Push('\r', Decode(s[2..]))
      case 't' => Push('\t', Decode(s[2..]))
      case 'u' =>
        if |s| < 6 then None
        else
          (match CodedChar(s)
           case None => None
           case Some((ch, n)) => Push(ch, Decode(s[n..])))
      case _ => None
  }

  function EscapeChar(ch: char): string {
    if ch == '"' || ch == '\\' then ['\\', ch]
    else if ch < ' ' then ['\\', 'u', '0', '0', HexDigit(ch as nat / 16), HexDigit(ch as nat % 16)]
    else [ch]
  }

  function Escape(v: string): string {
    if v == "" then "" else EscapeChar(v[0]) + Escape(v[1..])
  }

  function Quoted(v: string): string {
    ['"'] + Escape(v) + ['"']
  }

  // ---------------------------------------------------------------- the parser

  function ParseLiteral(raw: string, allowUnquoted: bool): Result<string, FilterError>
    requires raw != ""
  {
    if raw[0] == '"' then
      if raw[|raw| - 1] != '"' || |raw| == 1 then Err(MalformedLiteral)
      else
        match Decode(raw[1..|raw| - 1])
        case None => Err(MalformedLiteral)
        case Some(v) => Ok(v)
    else if !allowUnquoted then Err(QuotesRequired)
    else if exists i :: 0 <= i < |raw| && IsSpace(raw[i]) then Err(BadToken)
    else Ok(raw)
  }

  function ParseClause(text: string, allowUnquoted: bool): Result<Clause, FilterError> {
    match TakeAttribute(AfterSpaces(text))
    case None => Err(MalformedFilter)
    case Some((attribute, rest)) =>
      if rest == "" || !IsSpace(rest[0]) then Err(MalformedFilter)
      else
        match TakeWord(AfterSpaces(rest), EQ)
        case None => Err(MalformedFilter)
        case Some(tail) =>
          if tail == "" || !IsSpace(tail[0]) || Strip(tail) == "" || '\n' in Strip(tail) then Err(MalformedFilter)
          else
            match ParseLiteral(Strip(tail), allowUnquoted)
            case Err(e) => Err(e)
            case Ok(v) => Ok(Clause(attribute, v))
  }

  function ParseClauses(texts: seq<string>, allowUnquoted: bool): Result<seq<Clause>, FilterError> {
    if texts == [] then Ok([])
    else
      match ParseClause(texts[0], allowUnquoted)
      case Err(e) => Err(e)
      case Ok(c) =>
        match ParseClauses(texts[1..], allowUnquoted)
        case Err(e) => Err(e)
        case Ok(rest) => Ok([c] + rest)
  }

  /** `parse_user_filter_expression`, under what the provider's profile allows. */
  function ParseFilter(value: Option<string>, allowAnd: bool,
                       allowUnquoted: bool): Result<Option<seq<Clause>>, FilterError> {
    if value.None? || Strip(value.value) == "" then Ok(None)
    else
      match Split(value.value)
      case Err(e) => Err(e)
      case Ok(texts) =>
        if |texts| > 1 && !allowAnd then Err(AndNotSupported)
        else
          match ParseClauses(texts, allowUnquoted)
          case Err(e) => Err(e)
          case Ok(clauses) => Ok(Some(clauses))
  }

  // ---------------------------------------------------------------- literals come back

  lemma {:induction false} EscapeCharDecodes(ch: char, rest: string)
    ensures Decode(EscapeChar(ch) + rest) == Push(ch, Decode(rest))
  {
    if ch == '"' || ch == '\\' {
      assert (['\\', ch] + rest)[2..] == rest;
    } else if ch < ' ' {
      ControlDecodes(ch, rest);
    } else {
      assert ([ch] + rest)[1..] == rest;
    }
  }

  lemma {:induction false} ControlDecodes(ch: char, rest: string)
    requires ch < ' '
    ensures Decode(EscapeChar(ch) + rest) == Push(ch, Decode(rest))
  {
    var code := ch as nat;
    var e := EscapeChar(ch) + rest;
    assert e[..2] == ['\\', 'u'] && e[2..6] == ['0', '0', HexDigit(code / 16), HexDigit(code % 16)] && e[6..] == rest;
    HexCharReads(code);
    assert CodedChar(e) == Some((ch, 6));
  }

  lemma HexCharReads(code: nat)
    requires code < 256
    ensures HexCode(['0', '0', HexDigit(code / 16), HexDigit(code % 16)]) == Some(code)
  {
    HexDigits(code / 16);
    HexDigits(code % 16);
  }

  lemma HexDigits(d: nat)
    requires d < 16
    ensures HexValue(HexDigit(d)) == Some(d)
  {
    assert HEX[0] == '0' && HEX[1] == '1' && HEX[2] == '2' && HEX[3] == '3' && HEX[4] == '4' && HEX[5] == '5'
      && HEX[6] == '6'
      && HEX[7] == '7' && HEX[8] == '8' && HEX[9] == '9' && HEX[10] == 'a' && HEX[11] == 'b' && HEX[12] == 'c'
      && HEX[13] == 'd'
      && HEX[14] == 'e' && HEX[15] == 'f';
  }

  /** Every value survives being written as a string literal. */
  lemma {:induction false} EscapeDecodes(v: string)
    ensures Decode(Escape(v)) == Some(v)
  {
    if v != "" {
      EscapeCharDecodes(v[0], Escape(v[1..]));
      EscapeDecodes(v[1..]);
      assert [v[0]] + v[1..] == v;
    }
  }

  /** The scan is inside the quotes all along an escaped value, and no line ends in it. */
  lemma {:induction false} EscapeInside(v: string, follow: string)
    ensures Unbroken(Escape(v), Inside, follow) && EndState(Escape(v), Inside) == Inside && '\n' !in Escape(v)
  {
    if v != "" {
      var e, rest := EscapeChar(v[0]), Escape(v[1..]);
      EscapeInside(v[1..], follow);
      EscapeCharInside(v[0], rest + follow);
      UnbrokenAppend(e, rest, Inside, follow);
      EndStateAppend(e, rest, Inside);
    }
  }

  lemma {:induction false} EscapeCharInside(ch: char, follow: string)
    ensures Unbroken(EscapeChar(ch), Inside, follow) && EndState(EscapeChar(ch), Inside) == Inside
      && '\n' !in EscapeChar(ch)
  {
    var e := EscapeChar(ch);
    if |e| == 2 {
      PairInside(e, follow);
    } else if |e| == 6 {
      HexDigits(ch as nat / 16);
      HexDigits(ch as nat % 16);
      PairInside(e[..2], e[2..] + follow);
      PlainInside(e[2..], follow);
      assert e == e[..2] + e[2..];
      UnbrokenAppend(e[..2], e[2..], Inside, follow);
      EndStateAppend(e[..2], e[2..], Inside);
      assert e[0] != '\n' && e[1] != '\n' && e[2] != '\n' && e[3] != '\n' && e[4] != '\n' && e[5] != '\n';
    } else {
      PlainInside(e, follow);
    }
  }

  lemma {:induction false} PairInside(e: string, follow: string)
    requires |e| == 2 && e[0] == '\\'
    ensures Unbroken(e, Inside, follow) && EndState(e, Inside) == Inside
  {
    assert Next(Inside, e[0]) == Escaped;
    assert e[1..] == [e[1]] && e[1..][1..] == "";
    assert EndState(e[1..], Escaped) == EndState("", Inside);
    assert Unbroken(e[1..], Escaped, follow);
  }

  lemma {:induction false} PlainInside(e: string, follow: string)
    requires forall i :: 0 <= i < |e| ==> e[i] != '"' && e[i] != '\\'
    ensures Unbroken(e, Inside, follow) && EndState(e, Inside) == Inside
  {
    if e != "" { PlainInside(e[1..], follow); }
  }

  lemma {:induction false} QuotedSolid(v: string, follow: string)
    ensures Unbroken(Quoted(v), Outside, follow) && EndState(Quoted(v), Outside) == Outside && '\n' !in Quoted(v)
  {
    var body := Escape(v);
    var q := ['"'] + (body + ['"']);
    assert Quoted(v) == q && q[1..] == body + ['"'];
    EscapeInside(v, ['"'] + follow);
    UnbrokenAppend(body, ['"'], Inside, follow);
    EndStateAppend(body, ['"'], Inside);
    assert EndState(['"'], Inside) == EndState("", Outside);
    assert Unbroken(['"'], Inside, follow);
  }

  // ---------------------------------------------------------------- clauses come back

  /** `text` writes the clause: its attribute and `eq` in any case, any white space between them, and
  the value as a string literal. */
  ghost predicate Writes(text: string, c: Clause, a: string, b1: string, e: string, b2: string) {
    && SameWord(a, WordOf(c.attribute)) && SameWord(e, EQ)
    && b1 != "" && Blank(b1) && b2 != "" && Blank(b2)
    && text == a + (b1 + (e + (b2 + Quoted(c.value))))
  }

  ghost predicate Written(text: string, c: Clause) {
    exists a, b1, e, b2 :: Writes(text, c, a, b1, e, b2)
  }

  lemma {:induction false} WordUnbroken(w: string, follow: string)
    requires forall i :: 0 <= i < |w| ==> !IsSpace(w[i]) && w[i] != '"'
    ensures Unbroken(w, Outside, follow) && EndState(w, Outside) == Outside
  {
    if w != "" { WordUnbroken(w[1..], follow); }
  }

  lemma WordLetters(s: string, word: string)
    requires SameWord(s, word) && forall i :: 0 <= i < |word| ==> 'a' <= word[i] <= 'z'
    ensures forall i :: 0 <= i < |s| ==> !IsSpace(s[i]) && s[i] != '"'
  {
    forall i | 0 <= i < |s|
      ensures !IsSpace(s[i]) && s[i] != '"'
    {
      assert Lower(s[i]) == word[i];
    }
  }

  lemma KnownWords(word: string)
    requires word == USER_NAME || word == EXTERNAL_ID || word == EQ
    ensures forall i :: 0 <= i < |word| ==> 'a' <= word[i] <= 'z'
    ensures word != "" && word[0] != 'a'
  {
  }

  lemma {:induction false} WordStarts(a: string, word: string, rest: string)
    requires SameWord(a, word) && (word == USER_NAME || word == EXTERNAL_ID || word == EQ)
    ensures a != "" && (a + rest)[0] == a[0] && !IsSpace(a[0]) && !AndHere(a + rest)
    ensures Unbroken(a, Outside, rest) && EndState(a, Outside) == Outside
    ensures TakeWord(a + rest, word) == Some(rest)
  {
    KnownWords(word);
    WordLetters(a, word);
    WordUnbroken(a, rest);
    assert Lower(a[0]) == word[0];
    assert (a + rest)[..|word|] == a && (a + rest)[|word|..] == rest;
  }

  lemma {:induction false} BlankBetween(b: string, rest: string)
    requires b != "" && Blank(b) && rest != "" && !IsSpace(rest[0]) && !AndHere(rest)
    ensures Unbroken(b, Outside, rest) && EndState(b, Outside) == Outside
    ensures AfterSpaces(b + rest) == rest && (b + rest)[0] == b[0]
  {
    LeadUnbroken(b, rest);
    AfterBlank(b, rest);
    AfterNothing(rest);
  }

  /** A piece in front of solid text. */
  lemma {:induction false} Front(a: string, s: string, follow: string)
    requires Unbroken(a, Outside, s + follow) && EndState(a, Outside) == Outside
    requires Unbroken(s, Outside, follow) && EndState(s, Outside) == Outside
    ensures Unbroken(a + s, Outside, follow) && EndState(a + s, Outside) == Outside
  {
    UnbrokenAppend(a, s, Outside, follow);
    EndStateAppend(a, s, Outside);
  }

  /** Text the scan gets through, outside quotes at both ends, that is not itself the start of a separator. */
  ghost predicate Passes(s: string, follow: string) {
    Unbroken(s, Outside, follow) && EndState(s, Outside) == Outside && !AndHere(s + follow)
  }

  lemma QuotedPasses(v: string, follow: string)
    ensures Passes(Quoted(v), follow) && Quoted(v)[0] == '"'
  {
    QuotedSolid(v, follow);
  }

  lemma {:induction false} BlankPasses(b: string, s: string, follow: string)
    requires b != "" && Blank(b) && s != "" && !IsSpace(s[0]) && Passes(s, follow)
    ensures Unbroken(b + s, Outside, follow) && EndState(b + s, Outside) == Outside
  {
    BlankBetween(b, s + follow);
    Front(b, s, follow);
  }

  lemma {:induction false} WordPasses(a: string, word: string, s: string, follow: string)
    requires SameWord(a, word) && (word == USER_NAME || word == EXTERNAL_ID || word == EQ)
    requires Unbroken(s, Outside, follow) && EndState(s, Outside) == Outside
    ensures Passes(a + s, follow) && (a + s)[0] == a[0] && !IsSpace(a[0])
  {
    WordStarts(a, word, s + follow);
    Front(a, s, follow);
    Regroup(a, s, follow);
  }

  lemma WrittenPasses(text: string, c: Clause, follow: string)
    requires Written(text, c)
    ensures Passes(text, follow) && Trimmed(text)
  {
    var a, b1, e, b2 :| Writes(text, c, a, b1, e, b2);
    var q := Quoted(c.value);
    QuotedPasses(c.value, follow);
    BlankPasses(b2, q, follow);
    WordPasses(e, EQ, b2 + q, follow);
    BlankPasses(b1, e + (b2 + q), follow);
    WordPasses(a, WordOf(c.attribute), b1 + (e + (b2 + q)), follow);
    EndsWithQuote(a, b1, e, b2, c.value);
  }

  lemma EndsWithQuote(a: string, b1: string, e: string, b2: string, v: string)
    ensures var s := a + (b1 + (e + (b2 + Quoted(v)))); s[|s| - 1] == '"'
  {
    LastOf(b2, Quoted(v));
    LastOf(e, b2 + Quoted(v));
    LastOf(b1, e + (b2 + Quoted(v)));
    LastOf(a, b1 + (e + (b2 + Quoted(v))));
  }

  lemma WrittenSolid(text: string, c: Clause, leading: bool, followed: bool)
    requires Written(text, c)
    ensures Solid(leading, text, followed)
  {
    WrittenPasses(text, c, Follow(followed));
  }

  lemma AttributeTaken(a: string, attribute: Attribute, rest: string)
    requires SameWord(a, WordOf(attribute))
    ensures TakeAttribute(a + rest) == Some((attribute, rest))
  {
    WordStarts(a, WordOf(attribute), rest);
    if attribute.ExternalId? {
      assert Lower((a + rest)[0]) == 'e';
      if |a + rest| >= |USER_NAME| { assert Lower((a + rest)[..|USER_NAME|][0]) != USER_NAME[0]; }
    }
  }

  lemma LiteralParses(v: string, allowUnquoted: bool)
    ensures Trimmed(Quoted(v)) && ParseLiteral(Quoted(v), allowUnquoted) == Ok(v)
  {
    EscapeDecodes(v);
    assert Quoted(v)[1..|Quoted(v)| - 1] == Escape(v);
  }

  /** Whatever the case of its words and the white space between them, a written clause is read back,
  for every value: one with `and` in it, with quotes, back-slashes or control characters. */
  lemma WrittenParses(text: string, c: Clause, allowUnquoted: bool)
    requires Written(text, c)
    ensures ParseClause(text, allowUnquoted) == Ok(c)
  {
    var a, b1, e, b2 :| Writes(text, c, a, b1, e, b2);
    var q := Quoted(c.value);
    var tail := b2 + q;
    var rest := b1 + (e + tail);
    WordStarts(a, WordOf(c.attribute), rest);
    AfterNothing(text);
    AttributeTaken(a, c.attribute, rest);
    WordStarts(e, EQ, tail);
    BlankBetween(b1, e + tail);
    LiteralParses(c.value, allowUnquoted);
    QuotedSolid(c.value, "");
    StripExact(b2, q, "");
    assert b2 + q + "" == tail;
  }

  /** Each text writes the clause at its place. */
  ghost predicate AllWritten(texts: seq<string>, clauses: seq<Clause>) {
    |texts| == |clauses| && forall k :: 0 <= k < |texts| ==> Written(texts[k], clauses[k])
  }

  /** Separators, and white space after the last. */
  predicate WellGapped(gaps: seq<string>) {
    gaps != [] && if |gaps| == 1 then Blank(gaps[0]) else Separator(gaps[0]) && WellGapped(gaps[1..])
  }

  lemma {:induction false} WrittenReading(leading: bool, texts: seq<string>, clauses: seq<Clause>, gaps: seq<string>)
    requires AllWritten(texts, clauses) && WellGapped(gaps) && |gaps| == |texts|
    ensures Reading(leading, texts, gaps)
    decreases |texts|
  {
    WrittenSolid(texts[0], clauses[0], leading, gaps[0] != "");
    if |texts| > 1 { WrittenReading(false, texts[1..], clauses[1..], gaps[1..]); }
  }

  lemma RestWritten(texts: seq<string>, clauses: seq<Clause>)
    requires AllWritten(texts, clauses) && texts != []
    ensures AllWritten(texts[1..], clauses[1..])
  {
  }

  lemma {:induction false} WrittenParsesAll(texts: seq<string>, clauses: seq<Clause>, allowUnquoted: bool)
    requires AllWritten(texts, clauses)
    ensures ParseClauses(texts, allowUnquoted) == Ok(clauses)
    decreases |texts|
  {
    if texts != [] {
      WrittenParses(texts[0], clauses[0], allowUnquoted);
      RestWritten(texts, clauses);
      WrittenParsesAll(texts[1..], clauses[1..], allowUnquoted);
      assert clauses == [clauses[0]] + clauses[1..];
    }
  }

  /** The parser undoes the printer: any non-empty list of clauses, however written and however set
  apart, is read back as it was. */
  lemma {:induction false} FilterRoundTrip(lead: string, texts: seq<string>, clauses: seq<Clause>, gaps: seq<string>,
                                           allowAnd: bool, allowUnquoted: bool)
    requires Blank(lead) && AllWritten(texts, clauses) && WellGapped(gaps) && |gaps| == |texts|
    ensures ParseFilter(Some(lead + Body(texts, gaps)), allowAnd, allowUnquoted)
         == if allowAnd || |clauses| == 1 then Ok(Some(clauses)) else Err(AndNotSupported)
  {
    WrittenReading(lead != "", texts, clauses, gaps);
    WrittenParsesAll(texts, clauses, allowUnquoted);
    ReadingIsSplit(lead, texts, gaps);
    var value := lead + Body(texts, gaps);
    BodyStarts(texts, gaps);
    AfterBlank(lead, Body(texts, gaps));
    AfterNothing(Body(texts, gaps));
    NonBlankStrips(Body(texts, gaps));
  }

  lemma {:induction false} NonBlankStrips(s: string)
    requires s != "" && !IsSpace(s[0])
    ensures BeforeSpaces(s) != ""
  {
    if IsSpace(s[|s| - 1]) { NonBlankStrips(s[..|s| - 1]); }
  }

  /** The plain way to write a filter. */
  function Name(a: Attribute): string {
    match a
    case UserName => "userName"
    case ExternalId => "externalId"
  }

  function PrintClause(c: Clause): string {
    Name(c.attribute) + (" " + ("eq" + (" " + Quoted(c.value))))
  }

  function PrintClauses(clauses: seq<Clause>): seq<string> {
    seq(|clauses|, i requires 0 <= i < |clauses| => PrintClause(clauses[i]))
  }

  lemma PrintedIsWritten(c: Clause)
    ensures Written(PrintClause(c), c)
  {
    var a := Name(c.attribute);
    assert SameWord(a, WordOf(c.attribute)) by {
      if c.attribute.UserName? { assert a == "userName" && USER_NAME == "username"; }
      else { assert a == "externalId" && EXTERNAL_ID == "externalid"; }
    }
    assert Writes(PrintClause(c), c, a, " ", "eq", " ");
  }

  lemma {:induction false} PlainWellGapped(n: nat)
    requires n >= 1
    ensures WellGapped(PlainGaps(n))
  {
    if n > 1 {
      PlainSeparator();
      PlainWellGapped(n - 1);
      assert PlainGaps(n)[1..] == PlainGaps(n - 1);
    }
  }

  /** Printing and parsing: every non-empty list of clauses comes back, whatever its values hold. */
  lemma PrintParse(clauses: seq<Clause>, allowUnquoted: bool)
    requires clauses != []
    ensures ParseFilter(Some(Joined(PrintClauses(clauses))), true, allowUnquoted) == Ok(Some(clauses))
  {
    var texts, gaps := PrintClauses(clauses), PlainGaps(|clauses|);
    forall k | 0 <= k < |texts| ensures Written(texts[k], clauses[k]) { PrintedIsWritten(clauses[k]); }
    PlainWellGapped(|clauses|);
    FilterRoundTrip("", texts, clauses, gaps, true, allowUnquoted);
    JoinedIsBody(texts);
    assert "" + Body(texts, gaps) == Joined(texts);
  }
}
