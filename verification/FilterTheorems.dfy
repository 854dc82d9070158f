/** Exactly which texts are SCIM filters, and as what they are read: string literals, clauses and whole filters. */
module FilterTheorems {
  import opened Prelude
  import opened FilterSplitter
  import opened ScimFilter

  // ---------------------------------------------------------------- string literals

  /** One hexadecimal digit, in either case. */
  predicate HexOf(ch: char, d: nat) {
    || (d < 10 && ch as int == '0' as int + d)
    || (10 <= d < 16 && (ch as int == 'a' as int + d - 10 || ch as int == 'A' as int + d - 10))
  }

  /** `\u` and four hexadecimal digits, of this code. */
  ghost predicate Coded(p: string, code: nat) {
    |p| == 6 && p[0] == '\\' && p[1] == 'u' && exists a, b, c, d :: FourHex(p[2..], a, b, c, d, code)
  }

  predicate FourHex(s: string, a: nat, b: nat, c: nat, d: nat, code: nat) {
    && |s| == 4 && HexOf(s[0], a) && HexOf(s[1], b) && HexOf(s[2], c) && HexOf(s[3], d)
    && code == 4096 * a + 256 * b + 16 * c + d
  }

  /** The codes of the two halves in which a character beyond the basic plane is written. */
  predicate Halves(high: nat, low: nat, ch: char) {
    0xd800 <= high < 0xdc00 && 0xdc00 <= low < 0xe000 && ch as int == 0x10000 + 0x400 * (high - 0xd800) + (low - 0xdc00)
  }

  /** `p` is one of the ways a JSON string may write the character: as itself, by a short escape, by its code, or by the
  codes of its two halves. */
  ghost predicate Spells(p: string, ch: char) {
    || (p == [ch] && ch != '"' && ch != '\\' && ' ' <= ch)
    || (|p| == 2 && p[0] == '\\' && ShortFor(p[1], ch))
    || Coded(p, ch as nat)
    || (|p| == 12 && exists high, low :: Coded(p[..6], high) && Coded(p[6..], low) && Halves(high, low, ch))
  }

  predicate ShortFor(letter: char, ch: char) {
    || (letter == ch && ch in "\"\\/")
    || (letter == 'b' && ch as int == 8) || (letter == 't' && ch as int == 9) || (letter == 'n' && ch as int == 10)
    || (letter == 'f' && ch as int == 12) || (letter == 'r' && ch as int == 13)
  }

  function Concatenated(pieces: seq<string>): string {
    if pieces == [] then "" else pieces[0] + Concatenated(pieces[1..])
  }

  /** The pieces write the value, character by character. */
  ghost predicate Spelled(v: string, pieces: seq<string>) {
    |pieces| == |v| && forall i :: 0 <= i < |v| ==> Spells(pieces[i], v[i])
  }

  /** The text between quotes is a way to write the value. */
  ghost predicate Encodes(s: string, v: string) {
    exists pieces :: Spelled(v, pieces) && Concatenated(pieces) == s
  }

  lemma HexExact(ch: char)
    ensures forall d: nat :: HexOf(ch, d) <==> HexValue(ch) == Some(d)
  {
  }

  lemma CodedExact(p: string, code: nat)
    requires |p| == 6 && p[0] == '\\' && p[1] == 'u'
    ensures HexCode(p[2..]) == Some(code) <==> Coded(p, code)
  {
    var s := p[2..];
    HexExact(s[0]);
    HexExact(s[1]);
    HexExact(s[2]);
    HexExact(s[3]);
    if HexCode(s) == Some(code) {
      assert FourHex(s, HexValue(s[0]).value, HexValue(s[1]).value, HexValue(s[2]).value, HexValue(s[3]).value, code);
    }
  }

  /** A character written by its code, or by those of its halves, is read whatever follows. */
  lemma CodedRead(p: string, ch: char, rest: string)
    requires Coded(p, ch as nat)
    ensures CodedChar(p + rest) == Some((ch, 6))
  {
    assert (p + rest)[2..6] == p[2..];
    CodedExact(p, ch as nat);
  }

  lemma HalvesRead(p: string, ch: char, rest: string, high: nat, low: nat)
    requires |p| == 12 && Coded(p[..6], high) && Coded(p[6..], low) && Halves(high, low, ch)
    ensures CodedChar(p + rest) == Some((ch, 12))
  {
    var s := p + rest;
    assert s[2..6] == p[..6][2..] && s[8..12] == p[6..][2..];
    assert s[6] == p[6..][0] && s[7] == p[6..][1];
    CodedExact(p[..6], high);
    CodedExact(p[6..], low);
  }

  /** A spelled character is decoded, and so is what follows it. */
  lemma {:induction false} SpellsDecodes(p: string, ch: char, rest: string)
    requires Spells(p, ch)
    ensures Decode(p + rest) == Push(ch, Decode(rest))
  {
    if |p| == 1 {
      assert (p + rest)[1..] == rest;
    } else if |p| == 2 {
      assert (p + rest)[2..] == rest;
    } else if |p| == 6 {
      assert (p + rest)[6..] == rest;
      CodedRead(p, ch, rest);
    } else {
      assert (p + rest)[12..] == rest && p[0] == p[..6][0] && p[1] == p[..6][1];
      var high, low :| Coded(p[..6], high) && Coded(p[6..], low) && Halves(high, low, ch);
      HalvesRead(p, ch, rest, high, low);
    }
  }

  lemma {:induction false} SpelledDecodes(v: string, pieces: seq<string>)
    requires Spelled(v, pieces)
    ensures Decode(Concatenated(pieces)) == Some(v)
  {
    if v != "" {
      SpellsDecodes(pieces[0], v[0], Concatenated(pieces[1..]));
      SpelledDecodes(v[1..], pieces[1..]);
      assert [v[0]] + v[1..] == v;
    }
  }

  /** The first piece of a text that is decoded. */
  lemma FirstPiece(s: string) returns (n: nat, ch: char)
    requires s != "" && Decode(s).Some?
    ensures 1 <= n <= |s| && Spells(s[..n], ch) && Decode(s) == Push(ch, Decode(s[n..])) && Decode(s[n..]).Some?
  {
    if s[0] != '\\' {
      n, ch := 1, s[0];
      assert s[..1] == [s[0]];
    } else if s[1] == 'u' {
      ch, n := CodedChar(s).value.0, CodedChar(s).value.1;
      CodedSpells(s);
    } else {
      n := 2;
      ch := Decode(s).value[0];
    }
  }

  lemma CodedSpells(s: string)
    requires |s| >= 6 && s[0] == '\\' && s[1] == 'u' && CodedChar(s).Some?
    ensures Spells(s[..CodedChar(s).value.1], CodedChar(s).value.0)
  {
    var (ch, n) := CodedChar(s).value;
    var high := HexCode(s[2..6]).value;
    assert s[..6][2..] == s[2..6];
    CodedExact(s[..6], high);
    if n == 12 {
      assert s[6..12][2..] == s[8..12] && s[..12][..6] == s[..6] && s[..12][6..] == s[6..12];
      CodedExact(s[6..12], HexCode(s[8..12]).value);
      assert Halves(high, HexCode(s[8..12]).value, ch);
    }
  }

  lemma {:induction false} DecodedSpelled(s: string, v: string) returns (pieces: seq<string>)
    requires Decode(s) == Some(v)
    ensures Spelled(v, pieces) && Concatenated(pieces) == s
    decreases |s|
  {
    if s == "" {
      pieces := [];
    } else {
      var n, ch := FirstPiece(s);
      var rest := DecodedSpelled(s[n..], v[1..]);
      pieces := [s[..n]] + rest;
      assert s[..n] + s[n..] == s;
    }
  }

  /** A text is decoded exactly when it is a way to write a value, and to that value. */
  lemma {:induction false} DecodeExact(s: string, v: string)
    ensures Decode(s) == Some(v) <==> Encodes(s, v)
  {
    if Decode(s) == Some(v) {
      var pieces := DecodedSpelled(s, v);
    } else if Encodes(s, v) {
      var pieces :| Spelled(v, pieces) && Concatenated(pieces) == s;
      SpelledDecodes(v, pieces);
    }
  }

  /** The literal stands for the value: written between quotes; or, where that is allowed, as a token without white
  space that does not begin with a quote. */
  ghost predicate StandsFor(literal: string, v: string, allowUnquoted: bool) {
    if literal != "" && literal[0] == '"' then
      |literal| >= 2 && literal[|literal| - 1] == '"' && Encodes(literal[1..|literal| - 1], v)
    else allowUnquoted && literal == v && forall i :: 0 <= i < |v| ==> !IsSpace(v[i])
  }

  lemma LiteralExact(literal: string, v: string, allowUnquoted: bool)
    requires literal != ""
    ensures ParseLiteral(literal, allowUnquoted) == Ok(v) <==> StandsFor(literal, v, allowUnquoted)
    ensures var parsed := ParseLiteral(literal, allowUnquoted);
      parsed.Ok? || parsed.error == if literal[0] == '"' then MalformedLiteral
                                    else if !allowUnquoted then QuotesRequired
                                    else BadToken
  {
    if literal[0] == '"' && |literal| >= 2 { DecodeExact(literal[1..|literal| - 1], v); }
  }

  // ---------------------------------------------------------------- clauses

  /** A clause in its parts: white space, attribute, white space, operator, white space, literal, white space. */
  datatype Parts = Parts(lead: string, attribute: string, b1: string, operator: string, b2: string, literal: string,
                         trail: string)

  function TextOf(p: Parts): string {
    p.lead + (p.attribute + (p.b1 + (p.operator + (p.b2 + (p.literal + p.trail)))))
  }

  predicate Shaped(p: Parts, a: Attribute) {
    && Blank(p.lead) && SameWord(p.attribute, WordOf(a)) && p.b1 != "" && Blank(p.b1) && SameWord(p.operator, EQ)
    && p.b2 != "" && Blank(p.b2) && Trimmed(p.literal) && '\n' !in p.literal && Blank(p.trail)
  }

  /** The text compares an attribute with a literal. */
  ghost predicate Compares(text: string, a: Attribute, literal: string) {
    exists p :: Shaped(p, a) && p.literal == literal && TextOf(p) == text
  }

  function AsClause(a: Attribute, v: Result<string, FilterError>): Result<Clause, FilterError> {
    match v
    case Err(e) => Err(e)
    case Ok(value) => Ok(Clause(a, value))
  }

  lemma ShapedParses(p: Parts, a: Attribute, allowUnquoted: bool)
    requires Shaped(p, a)
    ensures ParseClause(TextOf(p), allowUnquoted) == AsClause(a, ParseLiteral(p.literal, allowUnquoted))
  {
    var tail := p.b2 + (p.literal + p.trail);
    var rest := p.b1 + (p.operator + tail);
    WordStarts(p.attribute, WordOf(a), rest);
    AfterBlank(p.lead, p.attribute + rest);
    AfterNothing(p.attribute + rest);
    AttributeTaken(p.attribute, a, rest);
    WordStarts(p.operator, EQ, tail);
    AfterBlank(p.b1, p.operator + tail);
    AfterNothing(p.operator + tail);
    StripExact(p.b2, p.literal, p.trail);
    assert p.b2 + p.literal + p.trail == tail;
    assert rest[0] == p.b1[0] && tail[0] == p.b2[0];
  }

  lemma WordTaken(s: string, word: string)
    requires TakeWord(s, word).Some?
    ensures SameWord(s[..|word|], word) && s == s[..|word|] + TakeWord(s, word).value
  {
  }

  /** The white space at the start of a text, and what follows. */
  lemma LeadingBlank(s: string) returns (b: string)
    ensures Blank(b) && s == b + AfterSpaces(s) && (s != "" && IsSpace(s[0]) ==> b != "")
  {
    AfterSpacesShorter(s);
    b := s[..|s| - |AfterSpaces(s)|];
    if s != "" && IsSpace(s[0]) { AfterSpacesShorter(s[1..]); }
  }

  lemma ParsedShaped(text: string, allowUnquoted: bool) returns (p: Parts, a: Attribute)
    requires ParseClause(text, allowUnquoted) != Err(MalformedFilter)
    ensures Shaped(p, a) && TextOf(p) == text
  {
    var lead := LeadingBlank(text);
    var (attribute, rest) := TakeAttribute(AfterSpaces(text)).value;
    a := attribute;
    WordTaken(AfterSpaces(text), WordOf(a));
    var b1 := LeadingBlank(rest);
    var tail := TakeWord(AfterSpaces(rest), EQ).value;
    WordTaken(AfterSpaces(rest), EQ);
    var b2, trail := StripParts(tail);
    Regroup(b2, Strip(tail), trail);
    assert tail[|b2|] == Strip(tail)[0];
    p := Parts(lead, AfterSpaces(text)[..|WordOf(a)|], b1, AfterSpaces(rest)[..|EQ|], b2, Strip(tail), trail);
  }

  /** Which texts are clauses, and which clause each is; a text that compares an attribute with something that stands
  for no value fails as that literal does. */
  lemma ClauseExact(text: string, c: Clause, allowUnquoted: bool)
    ensures ParseClause(text, allowUnquoted) == Ok(c)
       <==> exists literal :: Compares(text, c.attribute, literal) && StandsFor(literal, c.value, allowUnquoted)
    ensures ParseClause(text, allowUnquoted) == Err(MalformedFilter)
       <==> forall a, literal :: !Compares(text, a, literal)
  {
    forall a, literal | Compares(text, a, literal)
      ensures ParseClause(text, allowUnquoted) == AsClause(a, ParseLiteral(literal, allowUnquoted))
      ensures ParseLiteral(literal, allowUnquoted) == Ok(c.value) <==> StandsFor(literal, c.value, allowUnquoted)
      ensures ParseClause(text, allowUnquoted) != Err(MalformedFilter)
    {
      var p :| Shaped(p, a) && p.literal == literal && TextOf(p) == text;
      ShapedParses(p, a, allowUnquoted);
      LiteralExact(literal, c.value, allowUnquoted);
    }
    if ParseClause(text, allowUnquoted) != Err(MalformedFilter) {
      var p, a := ParsedShaped(text, allowUnquoted);
      assert Compares(text, a, p.literal);
    }
  }

  // ---------------------------------------------------------------- filters

  /** The text is the clause. */
  ghost predicate IsClause(text: string, c: Clause, allowUnquoted: bool) {
    exists literal :: Compares(text, c.attribute, literal) && StandsFor(literal, c.value, allowUnquoted)
  }

  ghost predicate AllClauses(texts: seq<string>, clauses: seq<Clause>, allowUnquoted: bool) {
    |clauses| == |texts| && forall k :: 0 <= k < |texts| ==> IsClause(texts[k], clauses[k], allowUnquoted)
  }

  lemma OneMoreClause(text: string, c: Clause, texts: seq<string>, clauses: seq<Clause>, allowUnquoted: bool)
    ensures AllClauses([text] + texts, [c] + clauses, allowUnquoted)
       <==> IsClause(text, c, allowUnquoted) && AllClauses(texts, clauses, allowUnquoted)
  {
    var ts, cs := [text] + texts, [c] + clauses;
    assert forall k :: 0 <= k < |texts| ==> ts[k + 1] == texts[k];
    assert forall k :: 0 <= k < |clauses| ==> cs[k + 1] == clauses[k];
    if AllClauses(ts, cs, allowUnquoted) {
      assert IsClause(ts[0], cs[0], allowUnquoted);
      forall k | 0 <= k < |texts| ensures IsClause(texts[k], clauses[k], allowUnquoted) {
        assert IsClause(ts[k + 1], cs[k + 1], allowUnquoted);
      }
    }
  }

  lemma {:induction false} ClausesExact(texts: seq<string>, clauses: seq<Clause>, allowUnquoted: bool)
    ensures ParseClauses(texts, allowUnquoted) == Ok(clauses) <==> AllClauses(texts, clauses, allowUnquoted)
  {
    if texts != [] && clauses != [] {
      ClauseExact(texts[0], clauses[0], allowUnquoted);
      ClausesExact(texts[1..], clauses[1..], allowUnquoted);
      OneMoreClause(texts[0], clauses[0], texts[1..], clauses[1..], allowUnquoted);
      assert texts == [texts[0]] + texts[1..] && clauses == [clauses[0]] + clauses[1..];
    }
  }

  /** The text reads as these clause texts, with `and` between them. */
  ghost predicate ReadsAs(value: string, texts: seq<string>) {
    exists lead, gaps :: Reads(value, lead, texts, gaps)
  }

  /** Which texts are filters, and of which clauses; no text, and a blank one, is no filter. */
  lemma FilterExact(value: Option<string>, clauses: seq<Clause>, allowAnd: bool, allowUnquoted: bool)
    ensures ParseFilter(value, allowAnd, allowUnquoted) == Ok(None) <==> value.None? || Blank(value.value)
    ensures ParseFilter(value, allowAnd, allowUnquoted) == Ok(Some(clauses))
       <==> value.Some? && !Blank(value.value)
            && exists texts :: ReadsAs(value.value, texts) && (|texts| > 1 ==> allowAnd)
                               && AllClauses(texts, clauses, allowUnquoted)
  {
    if value.Some? {
      StripBlank(value.value);
      forall texts
        ensures Split(value.value) == Ok(texts) <==> ReadsAs(value.value, texts)
      {
        SplitExact(value.value, texts);
      }
      if Split(value.value).Ok? { ClausesExact(Split(value.value).value, clauses, allowUnquoted); }
    }
  }

  lemma StripBlank(s: string)
    ensures Strip(s) == "" <==> Blank(s)
  {
    var lead, trail := StripParts(s);
    assert Strip(s) != "" ==> s[|lead|] == Strip(s)[0];
  }
}
