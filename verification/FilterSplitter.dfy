/** Splitting a SCIM filter at its unquoted `and`s (section 3.4.2.2 of RFC 7644), and what exactly a
split is: the only way to read the text as clauses with `and` between them. */
module FilterSplitter {
  import opened Prelude

  datatype FilterError = MalformedAnd | MalformedLiteral | MalformedFilter | AndNotSupported | QuotesRequired | BadToken

  /** White space, as the program's character test and pattern know it. */
  predicate IsSpace(ch: char) {
    || '\t' <= ch <= '\r' || '\U{1c}' <= ch <= ' ' || ch == '\U{85}' || ch == '\U{a0}' || ch == '\U{1680}'
    || '\U{2000}' <= ch <= '\U{200a}' || ch == '\U{2028}' || ch == '\U{2029}' || ch == '\U{202f}' || ch == '\U{205f}'
    || ch == '\U{3000}'
  }

  predicate Blank(s: string) {
    forall i :: 0 <= i < |s| ==> IsSpace(s[i])
  }

  predicate Trimmed(s: string) {
    s != "" && !IsSpace(s[0]) && !IsSpace(s[|s| - 1])
  }

  /** The text after its leading white space. */
  function AfterSpaces(s: string): string {
    if s != "" && IsSpace(s[0]) then AfterSpaces(s[1..]) else s
  }

  function BeforeSpaces(s: string): string {
    if s != "" && IsSpace(s[|s| - 1]) then BeforeSpaces(s[..|s| - 1]) else s
  }

  function Strip(s: string): string {
    BeforeSpaces(AfterSpaces(s))
  }

  /** `and`, in any case. */
  predicate IsAnd(s: string) {
    |s| == 3 && s[0] in "aA" && s[1] in "nN" && s[2] in "dD"
  }

  /** The text starts with `and` and white space. */
  predicate AndHere(s: string) {
    |s| > 3 && IsAnd(s[..3]) && IsSpace(s[3])
  }

  /** The text starts with white space, `and` and white space. */
  predicate BreakHere(s: string) {
    s != "" && IsSpace(s[0]) && AndHere(AfterSpaces(s))
  }

  /** Where the scan stands with respect to a quoted string. */
  datatype Quote = Outside | Inside | Escaped

  function Next(q: Quote, ch: char): Quote {
    match q
    case Outside => if ch == '"' then Inside else Outside
    case Inside => if ch == '\\' then Escaped else if ch == '"' then Outside else Inside
    case Escaped => Inside
  }

  function EndState(s: string, q: Quote): Quote {
    if s == "" then q else EndState(s[1..], Next(q, s[0]))
  }

  /** The first place outside quotes where an `and` separates. */
  function FirstBreak(s: string, q: Quote): (at: Option<nat>)
    ensures at.Some? ==> at.value < |s|
  {
    if s == "" then None
    else if q.Outside? && BreakHere(s) then Some(0)
    else
      match FirstBreak(s[1..], Next(q, s[0]))
      case None => None
      case Some(i) => Some(i + 1)
  }

  lemma {:induction false} AfterSpacesShorter(s: string)
    ensures |AfterSpaces(s)| <= |s| && Blank(s[..|s| - |AfterSpaces(s)|])
      && s == s[..|s| - |AfterSpaces(s)|] + AfterSpaces(s)
    ensures AfterSpaces(s) != "" ==> !IsSpace(AfterSpaces(s)[0])
  {
    if s != "" && IsSpace(s[0]) {
      AfterSpacesShorter(s[1..]);
      var n := |s[1..]| - |AfterSpaces(s[1..])|;
      assert s[..n + 1] == [s[0]] + s[1..][..n];
    }
  }

  /** What follows the separator at the start of `s`. */
  function AfterSeparator(s: string): (rest: string)
    requires BreakHere(s)
    ensures |rest| < |s|
  {
    AfterSpacesShorter(s);
    AfterSpacesShorter(AfterSpaces(s)[3..]);
    AfterSpaces(AfterSpaces(s)[3..])
  }

  lemma {:induction false} FirstBreakBreaks(s: string, q: Quote)
    requires FirstBreak(s, q).Some?
    ensures BreakHere(s[FirstBreak(s, q).value..])
  {
    if !(q.Outside? && BreakHere(s)) {
      FirstBreakBreaks(s[1..], Next(q, s[0]));
      var i := FirstBreak(s[1..], Next(q, s[0])).value;
      assert s[i + 1..] == s[1..][i..];
    }
  }

  type SplitResult = Result<seq<string>, FilterError>

  function Prepend(clauses: seq<string>, r: SplitResult): SplitResult {
    match r
    case Err(e) => Err(e)
    case Ok(rest) => Ok(clauses + rest)
  }

  /** The clauses of a filter, separator by separator. */
  function Split(s: string): SplitResult
    decreases |s|
  {
    match FirstBreak(s, Outside)
    case None =>
      if EndState(s, Outside) != Outside then Err(MalformedLiteral)
      else if Strip(s) == "" then Err(MalformedFilter)
      else Ok([Strip(s)])
    case Some(i) =>
      FirstBreakBreaks(s, Outside);
      if Strip(s[..i]) == "" then Err(MalformedAnd)
      else Prepend([Strip(s[..i])], Split(AfterSeparator(s[i..])))
  }

  lemma PrependTwice(a: seq<string>, b: seq<string>, r: SplitResult)
    ensures Prepend(a, Prepend(b, r)) == Prepend(a + b, r)
    ensures Prepend([], r) == r
  {
    if r.Ok? {
      assert a + (b + r.value) == a + b + r.value;
      assert [] + r.value == r.value;
    }
  }

  // ---------------------------------------------------------------- the loop

  function QuoteOf(inQuote: bool, escaped: bool): Quote {
    if !inQuote then Outside else if escaped then Escaped else Inside
  }

  method SkipSpaces(value: string, from: nat) returns (end: nat)
    requires from <= |value|
    ensures from <= end <= |value| && value[end..] == AfterSpaces(value[from..])
    ensures end == from <==> from == |value| || !IsSpace(value[from])
  {
    end := from;
    while end < |value| && IsSpace(value[end])
      invariant from <= end <= |value|
      invariant AfterSpaces(value[end..]) == AfterSpaces(value[from..])
      invariant end > from ==> IsSpace(value[from])
    {
      end := end + 1;
    }
  }

  /** Where the text after the separator at `index` starts, if there is one. */
  method SeparatorEnd(value: string, index: nat) returns (end: Option<nat>)
    requires index < |value|
    ensures end.Some? <==> BreakHere(value[index..])
    ensures end.Some? ==> index < end.value <= |value| && value[end.value..] == AfterSeparator(value[index..])
  {
    if !IsSpace(value[index]) { return None; }
    var tokenStart := SkipSpaces(value, index);
    var token := value[tokenStart..];
    if tokenStart + 3 < |value| && IsAnd(value[tokenStart..tokenStart + 3]) && IsSpace(value[tokenStart + 3]) {
      assert value[tokenStart..tokenStart + 3] == token[..3];
      var tokenEnd := SkipSpaces(value, tokenStart + 3);
      assert token[3..] == value[tokenStart + 3..];
      return Some(tokenEnd);
    }
    assert |token| > 3 ==> token[..3] == value[tokenStart..tokenStart + 3];
    end := None;
  }

  lemma {:induction false} EndStateAppend(a: string, b: string, q: Quote)
    ensures EndState(a + b, q) == EndState(b, EndState(a, q))
  {
    if a == "" {
      assert a + b == b;
    } else {
      assert (a + b)[1..] == a[1..] + b;
      EndStateAppend(a[1..], b, Next(q, a[0]));
    }
  }

  /** The scan has reached `index` in state `q` without a break since `start`. */
  ghost predicate Reached(value: string, start: nat, index: nat, q: Quote)
    requires start <= index <= |value|
  {
    && EndState(value[start..], Outside) == EndState(value[index..], q)
    && (match FirstBreak(value[index..], q)
        case None => FirstBreak(value[start..], Outside).None?
        case Some(i) => FirstBreak(value[start..], Outside) == Some(i + (index - start)))
  }

  lemma ReachOne(value: string, start: nat, index: nat, q: Quote)
    requires start <= index < |value| && Reached(value, start, index, q)
    requires !(q.Outside? && BreakHere(value[index..]))
    ensures Reached(value, start, index + 1, Next(q, value[index]))
  {
    assert value[index..][1..] == value[index + 1..];
  }

  lemma CutHere(value: string, start: nat, index: nat, end: nat)
    requires start <= index < end <= |value| && Reached(value, start, index, Outside)
    requires BreakHere(value[index..]) && value[end..] == AfterSeparator(value[index..])
    ensures var clause := Strip(value[start..index]);
      Split(value[start..]) == if clause == "" then Err(MalformedAnd) else Prepend([clause], Split(value[end..]))
  {
    var s := value[start..];
    assert FirstBreak(s, Outside) == Some(index - start);
    assert s[..index - start] == value[start..index] && s[index - start..] == value[index..];
  }

  /** The scan has found `clauses`, the current clause starts at `start`. */
  ghost predicate Scanned(value: string, clauses: seq<string>, start: nat, index: nat, q: Quote) {
    start <= index <= |value| && Reached(value, start, index, q)
      && Split(value) == Prepend(clauses, Split(value[start..]))
  }

  lemma ScanStarts(value: string)
    ensures Scanned(value, [], 0, 0, Outside)
  {
    assert value[0..] == value;
    PrependTwice([], [], Split(value));
  }

  lemma ScanAdvances(value: string, clauses: seq<string>, start: nat, index: nat, q: Quote)
    requires Scanned(value, clauses, start, index, q) && index < |value| && !(q.Outside? && BreakHere(value[index..]))
    ensures Scanned(value, clauses, start, index + 1, Next(q, value[index]))
  {
    ReachOne(value, start, index, q);
  }

  lemma {:induction false} ScanCuts(value: string, clauses: seq<string>, start: nat, index: nat, end: nat)
    requires Scanned(value, clauses, start, index, Outside) && index < end <= |value|
    requires BreakHere(value[index..]) && value[end..] == AfterSeparator(value[index..])
    ensures var clause := Strip(value[start..index]);
      if clause == "" then Split(value) == Err(MalformedAnd) else Scanned(value, clauses + [clause], end, end, Outside)
  {
    CutHere(value, start, index, end);
    PrependTwice(clauses, [Strip(value[start..index])], Split(value[end..]));
  }

  lemma {:induction false} ScanEnds(value: string, clauses: seq<string>, start: nat, q: Quote)
    requires Scanned(value, clauses, start, |value|, q)
    ensures var final := Strip(value[start..]);
      Split(value) == if q != Outside then Err(MalformedLiteral) else if final == "" then Err(MalformedFilter)
        else Ok(clauses + [final])
  {
    assert value[|value|..] == "";
  }

  /** One character with respect to quotes. */
  method Track(inQuote: bool, escaped: bool, character: char) returns (inQuote': bool, escaped': bool)
    requires escaped ==> inQuote
    ensures QuoteOf(inQuote', escaped') == Next(QuoteOf(inQuote, escaped), character)
    ensures escaped' ==> inQuote'
  {
    inQuote', escaped' := inQuote, escaped;
    if inQuote {
      if escaped {
        escaped' := false;
      } else if character == '\\' {
        escaped' := true;
      } else if character == '"' {
        inQuote' := false;
      }
    } else if character == '"' {
      inQuote' := true;
    }
  }

  /** The program's single pass over the text. */
  method SplitAndClauses(value: string) returns (r: SplitResult)
    ensures r == Split(value)
  {
    var clauses: seq<string> := [];
    var start, index := 0, 0;
    var inQuote, escaped := false, false;
    ScanStarts(value);
    while index < |value|
      invariant 0 <= start <= index <= |value| && (escaped ==> inQuote)
      invariant Scanned(value, clauses, start, index, QuoteOf(inQuote, escaped))
      decreases |value| - index
    {
      if !inQuote {
        var end := SeparatorEnd(value, index);
        if end.Some? {
          ScanCuts(value, clauses, start, index, end.value);
          var clause := Strip(value[start..index]);
          if clause == "" { return Err(MalformedAnd); }
          clauses := clauses + [clause];
          start, index := end.value, end.value;
          continue;
        }
      }
      ScanAdvances(value, clauses, start, index, QuoteOf(inQuote, escaped));
      inQuote, escaped := Track(inQuote, escaped, value[index]);
      index := index + 1;
    }
    ScanEnds(value, clauses, start, QuoteOf(inQuote, escaped));
    if inQuote { return Err(MalformedLiteral); }
    var final := Strip(value[start..]);
    if final == "" { return Err(MalformedFilter); }
    r := Ok(clauses + [final]);
  }

  // ---------------------------------------------------------------- what a split is

  /** No `and` separates inside `c` when the text goes on with `follow`. */
  predicate Unbroken(c: string, q: Quote, follow: string) {
    c == "" || (!(q.Outside? && BreakHere(c + follow)) && Unbroken(c[1..], Next(q, c[0]), follow))
  }

  /** What matters of the text after a clause: whether there is white space. */
  function Follow(followed: bool): string {
    if followed then " " else ""
  }

  /** A clause that a split can produce: trimmed, its quotes closed, nothing in it that separates. */
  predicate Solid(leading: bool, c: string, followed: bool) {
    && Trimmed(c) && EndState(c, Outside) == Outside && Unbroken(c, Outside, Follow(followed))
    && (leading ==> !AndHere(c + Follow(followed)))
  }

  /** White space, `and`, white space, and nothing else. */
  predicate Separator(g: string) {
    BreakHere(g) && AfterSeparator(g) == ""
  }

  /** Clauses with the text after each: separators, and white space after the last. */
  function Body(cs: seq<string>, gaps: seq<string>): string
    requires |cs| == |gaps|
  {
    if cs == [] then "" else cs[0] + gaps[0] + Body(cs[1..], gaps[1..])
  }

  /** Clauses a split can produce, separators between them, white space after the last. */
  predicate Reading(leading: bool, cs: seq<string>, gaps: seq<string>) {
    && |cs| == |gaps| >= 1
    && Solid(leading, cs[0], gaps[0] != "")
    && (if |cs| == 1 then Blank(gaps[0]) else Separator(gaps[0]) && Reading(false, cs[1..], gaps[1..]))
  }

  /** `s` is the clauses `cs`, set apart by `gaps`, after the white space `lead`. */
  predicate Reads(s: string, lead: string, cs: seq<string>, gaps: seq<string>) {
    Blank(lead) && Reading(lead != "", cs, gaps) && s == lead + Body(cs, gaps)
  }

  // ---------------------------------------------------------------- white space around a clause

  lemma {:induction false} AfterBlank(lead: string, s: string)
    requires Blank(lead)
    ensures AfterSpaces(lead + s) == AfterSpaces(s)
  {
    if lead == "" {
      assert lead + s == s;
    } else {
      assert (lead + s)[1..] == lead[1..] + s;
      AfterBlank(lead[1..], s);
    }
  }

  lemma {:induction false} AfterNothing(s: string)
    requires s == "" || !IsSpace(s[0])
    ensures AfterSpaces(s) == s
  {
  }

  lemma {:induction false} BeforeBlank(s: string, trail: string)
    requires Blank(trail)
    ensures BeforeSpaces(s + trail) == BeforeSpaces(s)
  {
    if trail == "" {
      assert s + trail == s;
    } else {
      assert (s + trail)[..|s + trail| - 1] == s + trail[..|trail| - 1];
      assert (s + trail)[|s + trail| - 1] == trail[|trail| - 1];
      BeforeBlank(s, trail[..|trail| - 1]);
    }
  }

  lemma StripExact(lead: string, c: string, trail: string)
    requires Blank(lead) && Blank(trail) && Trimmed(c)
    ensures Strip(lead + c + trail) == c
  {
    assert lead + c + trail == lead + (c + trail);
    AfterBlank(lead, c + trail);
    AfterNothing(c + trail);
    BeforeBlank(c, trail);
  }

  lemma {:induction false} BeforeSpacesShorter(s: string)
    ensures |BeforeSpaces(s)| <= |s| && Blank(s[|BeforeSpaces(s)|..]) && s == BeforeSpaces(s) + s[|BeforeSpaces(s)|..]
    ensures BeforeSpaces(s) != "" ==> !IsSpace(BeforeSpaces(s)[|BeforeSpaces(s)| - 1])
  {
    if s != "" && IsSpace(s[|s| - 1]) {
      BeforeSpacesShorter(s[..|s| - 1]);
      var n := |BeforeSpaces(s)|;
      assert s[n..] == s[..|s| - 1][n..] + [s[|s| - 1]];
    }
  }

  /** Stripping takes white space off both ends and nothing else. */
  lemma StripParts(s: string) returns (lead: string, trail: string)
    ensures Blank(lead) && Blank(trail) && s == lead + Strip(s) + trail
    ensures Strip(s) != "" ==> Trimmed(Strip(s))
  {
    AfterSpacesShorter(s);
    var rest := AfterSpaces(s);
    BeforeSpacesShorter(rest);
    lead := s[..|s| - |rest|];
    trail := rest[|BeforeSpaces(rest)|..];
    Regroup(lead, BeforeSpaces(rest), trail);
    if Strip(s) != "" { FirstOf(BeforeSpaces(rest), trail); }
  }

  lemma Regroup(a: string, b: string, c: string)
    ensures a + (b + c) == a + b + c
  {
  }

  lemma FirstOf(front: string, back: string)
    ensures front != "" ==> (front + back)[0] == front[0]
  {
  }

  // ---------------------------------------------------------------- breaks depend on little

  /** Text that is nothing, or goes on with white space. */
  predicate Gap(g: string) {
    g == "" || IsSpace(g[0])
  }

  lemma AndHereExact(t: string, g: string)
    requires t != "" && Gap(g)
    ensures AndHere(t + g) == ((|t| > 3 && AndHere(t)) || (IsAnd(t) && g != ""))
  {
    if |t| > 3 {
      assert (t + g)[..3] == t[..3];
    } else if |t| == 3 {
      assert (t + g)[..3] == t;
    } else if |t + g| > 3 {
      assert (t + g)[..3][|t|] == g[0];
    }
  }

  lemma {:induction false} AfterSpacesKeeps(c: string, g: string)
    requires c != "" && !IsSpace(c[|c| - 1])
    ensures AfterSpaces(c) != "" && AfterSpaces(c + g) == AfterSpaces(c) + g
  {
    if IsSpace(c[0]) {
      assert (c + g)[1..] == c[1..] + g;
      AfterSpacesKeeps(c[1..], g);
    }
  }

  lemma BreakHereGap(c: string, g: string)
    requires c != "" && !IsSpace(c[|c| - 1]) && Gap(g)
    ensures BreakHere(c + g) == BreakHere(c + Follow(g != ""))
    ensures AndHere(c + g) == AndHere(c + Follow(g != ""))
  {
    AfterSpacesKeeps(c, g);
    AfterSpacesKeeps(c, Follow(g != ""));
    AndHereExact(AfterSpaces(c), g);
    AndHereExact(AfterSpaces(c), Follow(g != ""));
    AndHereExact(c, g);
    AndHereExact(c, Follow(g != ""));
  }

  lemma {:induction false} UnbrokenGap(c: string, q: Quote, g: string)
    requires c == "" || !IsSpace(c[|c| - 1])
    requires Gap(g)
    ensures Unbroken(c, q, g) == Unbroken(c, q, Follow(g != ""))
  {
    if c != "" {
      BreakHereGap(c, g);
      UnbrokenGap(c[1..], Next(q, c[0]), g);
    }
  }

  lemma {:induction false} UnbrokenAppend(a: string, b: string, q: Quote, follow: string)
    ensures Unbroken(a + b, q, follow) == (Unbroken(a, q, b + follow) && Unbroken(b, EndState(a, q), follow))
  {
    if a == "" {
      assert a + b == b;
    } else {
      assert (a + b)[1..] == a[1..] + b && a + b + follow == a + (b + follow);
      UnbrokenAppend(a[1..], b, Next(q, a[0]), follow);
    }
  }

  /** Leading white space separates nothing exactly when what follows does not start with `and`. */
  lemma {:induction false} LeadUnbroken(lead: string, s: string)
    requires Blank(lead) && (s == "" || !IsSpace(s[0]))
    ensures EndState(lead, Outside) == Outside
    ensures Unbroken(lead, Outside, s) == (lead == "" || !AndHere(s))
  {
    if lead != "" {
      AfterBlank(lead, s);
      AfterNothing(s);
      LeadUnbroken(lead[1..], s);
    }
  }

  /** The first break is the first place that is not unbroken. */
  lemma {:induction false} FirstBreakExact(a: string, b: string, q: Quote)
    requires Unbroken(a, q, b)
    ensures FirstBreak(a + b, q) == match FirstBreak(b, EndState(a, q)) case None => None case Some(i) => Some(|a| + i)
  {
    if a == "" {
      assert a + b == b;
    } else {
      assert (a + b)[1..] == a[1..] + b;
      FirstBreakExact(a[1..], b, Next(q, a[0]));
    }
  }

  lemma SliceTail(s: string, n: nat)
    requires 1 <= n <= |s|
    ensures s[..n] != "" && s[..n][0] == s[0] && s[..n][1..] == s[1..][..n - 1]
    ensures s[n..] == s[1..][n - 1..] && s[..n] + s[n..] == s
  {
  }

  lemma {:induction false} BeforeFirstBreak(s: string, q: Quote)
    ensures var n := if FirstBreak(s, q).Some? then FirstBreak(s, q).value else |s|;
      Unbroken(s[..n], q, s[n..]) && (n < |s| ==> EndState(s[..n], q) == Outside)
  {
    if s != "" && !(q.Outside? && BreakHere(s)) {
      BeforeFirstBreak(s[1..], Next(q, s[0]));
      var n := if FirstBreak(s, q).Some? then FirstBreak(s, q).value else |s|;
      SliceTail(s, n);
    }
  }

  // ---------------------------------------------------------------- the split reads the text

  /** A clause between its white space, in front of `b`. */
  lemma ClauseUnbroken(lead: string, c: string, b: string)
    requires Blank(lead) && Trimmed(c) && Gap(b)
    ensures EndState(lead + c, Outside) == EndState(c, Outside)
    ensures Unbroken(lead + c, Outside, b) <==>
      Unbroken(c, Outside, Follow(b != "")) && (lead != "" ==> !AndHere(c + Follow(b != "")))
  {
    LeadUnbroken(lead, c + b);
    UnbrokenAppend(lead, c, Outside, b);
    UnbrokenGap(c, Outside, b);
    BreakHereGap(c, b);
    EndStateAppend(lead, c, Outside);
  }

  lemma {:induction false} BlankTail(g: string)
    requires Blank(g)
    ensures Unbroken(g, Outside, "") && EndState(g, Outside) == Outside && FirstBreak(g, Outside) == None
  {
    if g != "" {
      assert g + "" == g;
      AfterBlank(g, "");
      BlankTail(g[1..]);
    }
  }

  lemma SeparatorStart(g: string, rest: string)
    requires Separator(g) && (rest == "" || !IsSpace(rest[0]))
    ensures BreakHere(g + rest) && AfterSeparator(g + rest) == rest
  {
    AfterSpacesShorter(g);
    var token := AfterSpaces(g);
    var lead := g[..|g| - |token|];
    assert g + rest == lead + (token + rest);
    AfterBlank(lead, token + rest);
    AfterNothing(token + rest);
    assert (token + rest)[..3] == token[..3] && (token + rest)[3..] == token[3..] + rest;
    AfterSpacesShorter(token[3..]);
    assert Blank(token[3..]);
    AfterBlank(token[3..], rest);
    AfterNothing(rest);
  }

  lemma {:induction false} BodyStarts(cs: seq<string>, gaps: seq<string>)
    requires |cs| == |gaps| >= 1 && Trimmed(cs[0])
    ensures Body(cs, gaps) != "" && !IsSpace(Body(cs, gaps)[0])
  {
  }

  lemma {:induction false} LastReading(lead: string, c: string, gap: string)
    requires Blank(lead) && Blank(gap) && Solid(lead != "", c, gap != "")
    ensures Split(lead + c + gap) == Ok([c])
  {
    ClauseUnbroken(lead, c, gap);
    FirstBreakExact(lead + c, gap, Outside);
    BlankTail(gap);
    EndStateAppend(lead + c, gap, Outside);
    StripExact(lead, c, gap);
  }

  lemma {:induction false} FirstReading(lead: string, c: string, gap: string, rest: string)
    requires Blank(lead) && Separator(gap) && Solid(lead != "", c, gap != "")
    requires rest == "" || !IsSpace(rest[0])
    ensures Split(lead + c + gap + rest) == Prepend([c], Split(rest))
  {
    var s := lead + c + gap + rest;
    assert s == (lead + c) + (gap + rest);
    ClauseUnbroken(lead, c, gap + rest);
    SeparatorStart(gap, rest);
    FirstBreakExact(lead + c, gap + rest, Outside);
    assert FirstBreak(s, Outside) == Some(|lead + c|);
    assert s[..|lead + c|] == lead + c && s[|lead + c|..] == gap + rest;
    StripExact(lead, c, "");
    assert lead + c + "" == lead + c;
  }

  /** Every reading of a text is found. */
  lemma {:induction false} ReadingIsSplit(lead: string, cs: seq<string>, gaps: seq<string>)
    requires Blank(lead) && Reading(lead != "", cs, gaps)
    ensures Split(lead + Body(cs, gaps)) == Ok(cs)
    decreases |cs|
  {
    var c, gap := cs[0], gaps[0];
    if |cs| == 1 {
      assert cs == [c] && gaps == [gap];
      SingleBody(c, gap);
      Regroup(lead, c, gap);
      LastReading(lead, c, gap);
    } else {
      var rest := Body(cs[1..], gaps[1..]);
      Regroup4(lead, c, gap, rest);
      ReadingIsSplit("", cs[1..], gaps[1..]);
      assert "" + rest == rest;
      BodyStarts(cs[1..], gaps[1..]);
      FirstReading(lead, c, gap, rest);
      assert [c] + cs[1..] == cs;
    }
  }

  lemma Regroup4(a: string, b: string, c: string, d: string)
    ensures a + (b + c + d) == a + b + c + d
  {
  }

  lemma LastIsReading(s: string) returns (lead: string, gap: string)
    requires FirstBreak(s, Outside).None? && EndState(s, Outside) == Outside && Strip(s) != ""
    ensures Reads(s, lead, [Strip(s)], [gap])
  {
    lead, gap := StripParts(s);
    var c := Strip(s);
    BeforeFirstBreak(s, Outside);
    assert s[..|s|] == s && s[|s|..] == "";
    UnbrokenAppend(lead + c, gap, Outside, "");
    assert gap + "" == gap;
    ClauseUnbroken(lead, c, gap);
    EndStateAppend(lead + c, gap, Outside);
    OutsideBefore(c, gap);
    SingleBody(c, gap);
    Regroup(lead, c, gap);
  }

  lemma SingleBody(c: string, gap: string)
    ensures Body([c], [gap]) == c + gap
  {
    assert [c][1..] == [] && [gap][1..] == [];
    assert Body([c][1..], [gap][1..]) == "";
  }

  /** White space changes no state but an escape, and never leaves a quoted string. */
  lemma {:induction false} OutsideBefore(c: string, gap: string)
    requires Blank(gap) && EndState(gap, EndState(c, Outside)) == Outside
    ensures EndState(c, Outside) == Outside
    decreases |gap|
  {
    if gap != "" {
      assert EndState(c + [gap[0]], Outside) == Next(EndState(c, Outside), gap[0]) by {
        EndStateAppend(c, [gap[0]], Outside);
      }
      OutsideBefore(c + [gap[0]], gap[1..]);
    }
  }

  lemma {:induction false} UnbrokenEnd(front: string, ch: char, b: string)
    requires EndState(front + [ch], Outside) == Outside && Unbroken(front + [ch], Outside, b) && BreakHere(b)
    ensures !IsSpace(ch)
  {
    EndStateAppend(front, [ch], Outside);
    assert EndState([ch], EndState(front, Outside)) == Next(EndState(front, Outside), ch);
    UnbrokenAppend(front, [ch], Outside, b);
    assert ([ch] + b)[1..] == b;
  }

  /** The text before the first break ends without white space. */
  lemma {:induction false} NoSpaceBeforeBreak(s: string, i: nat)
    requires FirstBreak(s, Outside) == Some(i) && i > 0
    ensures !IsSpace(s[i - 1]) && BreakHere(s[i..]) && EndState(s[..i], Outside) == Outside
  {
    FirstBreakBreaks(s, Outside);
    BeforeFirstBreak(s, Outside);
    assert s[..i] == s[..i - 1] + [s[i - 1]];
    UnbrokenEnd(s[..i - 1], s[i - 1], s[i..]);
  }

  lemma LastOf(front: string, back: string)
    ensures back != "" ==> (front + back)[|front + back| - 1] == back[|back| - 1]
  {
  }

  lemma {:induction false} BlankAfterSpaces(s: string)
    requires Blank(s)
    ensures AfterSpaces(s) == ""
  {
    if s != "" { BlankAfterSpaces(s[1..]); }
  }

  lemma TokenShape(token: string) returns (mid: string)
    requires AndHere(token)
    ensures AndHere(mid) && AfterSpaces(mid[3..]) == "" && !IsSpace(mid[0]) && token == mid + AfterSpaces(token[3..])
  {
    var tail := token[3..];
    AfterSpacesShorter(tail);
    var blank := tail[..|tail| - |AfterSpaces(tail)|];
    mid := token[..3] + blank;
    assert token == token[..3] + tail;
    Regroup(token[..3], blank, AfterSpaces(tail));
    assert mid[..3] == token[..3] && mid[3..] == blank;
    assert |blank| > 0 && blank[0] == tail[0] by { LeadingSpace(tail); }
    BlankAfterSpaces(blank);
  }

  lemma {:induction false} LeadingSpace(s: string)
    requires s != "" && IsSpace(s[0])
    ensures |AfterSpaces(s)| < |s|
  {
    AfterSpacesShorter(s[1..]);
  }

  lemma SeparatorShape(s: string) returns (g: string)
    requires BreakHere(s)
    ensures Separator(g) && s == g + AfterSeparator(s)
    ensures AfterSeparator(s) != "" ==> !IsSpace(AfterSeparator(s)[0])
  {
    AfterSpacesShorter(s);
    LeadingSpace(s);
    var token := AfterSpaces(s);
    var lead := s[..|s| - |token|];
    var mid := TokenShape(token);
    g := lead + mid;
    Regroup(lead, mid, AfterSeparator(s));
    AfterBlank(lead, mid);
    AfterNothing(mid);
    FirstOf(lead, mid);
    AfterSpacesShorter(token[3..]);
  }

  lemma FirstIsReading(s: string, i: nat) returns (lead: string)
    requires FirstBreak(s, Outside) == Some(i) && Strip(s[..i]) != ""
    ensures Blank(lead) && s[..i] == lead + Strip(s[..i]) && Solid(lead != "", Strip(s[..i]), true)
  {
    var trail;
    lead, trail := StripParts(s[..i]);
    var c := Strip(s[..i]);
    assert s[..i] != "" && (lead + c + trail)[i - 1] == s[i - 1];
    NoSpaceBeforeBreak(s, i);
    LastOf(lead + c, trail);
    assert trail == "";
    assert lead + c + trail == lead + c;
    BeforeFirstBreak(s, Outside);
    ClauseUnbroken(lead, c, s[i..]);
  }

  lemma HalvesJoin(s: string, i: nat)
    requires i <= |s|
    ensures s == s[..i] + s[i..]
  {
  }

  lemma OneMore(s: string, i: nat, rest: string, cs: seq<string>, after: seq<string>)
    returns (lead: string, gaps: seq<string>)
    requires FirstBreak(s, Outside) == Some(i) && Strip(s[..i]) != "" && BreakHere(s[i..])
      && rest == AfterSeparator(s[i..])
    requires Reads(rest, "", cs, after)
    ensures Reads(s, lead, [Strip(s[..i])] + cs, gaps)
  {
    lead := FirstIsReading(s, i);
    var c := Strip(s[..i]);
    var sep := SeparatorShape(s[i..]);
    gaps := [sep] + after;
    HalvesJoin(s, i);
    Regroup(lead + c, sep, rest);
    Compose(s, lead, c, sep, rest, cs, after);
  }

  /** Every split is a reading of the text. */
  lemma {:induction false} SplitIsReading(s: string) returns (lead: string, gaps: seq<string>)
    requires Split(s).Ok?
    ensures Reads(s, lead, Split(s).value, gaps)
    ensures s != "" && !IsSpace(s[0]) ==> lead == ""
    decreases |s|
  {
    match FirstBreak(s, Outside)
    case None =>
      var gap;
      lead, gap := LastIsReading(s);
      gaps := [gap];
      NoLead(s, lead, gaps);
    case Some(i) =>
      FirstBreakBreaks(s, Outside);
      var rest := AfterSeparator(s[i..]);
      var sep := SeparatorShape(s[i..]);
      var none, after := SplitIsReading(rest);
      lead, gaps := OneMore(s, i, rest, Split(rest).value, after);
      NoLead(s, lead, gaps);
  }

  lemma {:induction false} NoLead(s: string, lead: string, gaps: seq<string>)
    requires Split(s).Ok? && Reads(s, lead, Split(s).value, gaps)
    ensures s != "" && !IsSpace(s[0]) ==> lead == ""
  {
    FirstOf(lead, Body(Split(s).value, gaps));
  }

  lemma Compose(s: string, lead: string, c: string, sep: string, rest: string, cs: seq<string>, gaps: seq<string>)
    requires Blank(lead) && Separator(sep) && Solid(lead != "", c, true)
    requires Reads(rest, "", cs, gaps) && s == lead + c + sep + rest
    ensures Reads(s, lead, [c] + cs, [sep] + gaps)
  {
    var all, between := [c] + cs, [sep] + gaps;
    assert all[1..] == cs && between[1..] == gaps;
    assert "" + Body(cs, gaps) == Body(cs, gaps);
    Regroup4(lead, c, sep, rest);
  }

  /** What a split is: the text has at most one reading as clauses with separators between them, the
  split succeeds exactly when it has one, and returns its clauses. */
  lemma {:induction false} SplitExact(s: string, cs: seq<string>)
    ensures Split(s) == Ok(cs) <==> exists lead, gaps :: Reads(s, lead, cs, gaps)
  {
    if Split(s) == Ok(cs) {
      var lead, gaps := SplitIsReading(s);
      assert Reads(s, lead, cs, gaps);
    }
    if exists lead, gaps :: Reads(s, lead, cs, gaps) {
      var lead, gaps :| Reads(s, lead, cs, gaps);
      ReadingIsSplit(lead, cs, gaps);
    }
  }

  // ---------------------------------------------------------------- splitting again

  function Joined(cs: seq<string>): string {
    if cs == [] then "" else if |cs| == 1 then cs[0] else cs[0] + " and " + Joined(cs[1..])
  }

  function PlainGaps(n: nat): seq<string> {
    seq(n, i requires 0 <= i < n => if i < n - 1 then " and " else "")
  }

  lemma {:induction false} JoinedIsBody(cs: seq<string>)
    ensures cs != [] ==> Joined(cs) == Body(cs, PlainGaps(|cs|))
  {
    if |cs| == 1 {
      assert Body(cs[1..], PlainGaps(1)[1..]) == "";
    } else if |cs| > 1 {
      JoinedIsBody(cs[1..]);
      assert PlainGaps(|cs|)[1..] == PlainGaps(|cs[1..]|);
    }
  }

  lemma PlainSeparator()
    ensures Separator(" and ")
  {
    var g := " and ";
    assert g[1..] == "and " && AfterSpaces("and ") == "and ";
    assert AfterSpaces(g) == AfterSpaces(g[1..]);
    assert "and "[..3] == "and" && "and "[3..] == " " && " "[1..] == "";
    assert AfterSpaces(" ") == AfterSpaces(" "[1..]);
  }

  lemma {:induction false} UnbrokenAlone(c: string, q: Quote)
    requires c == "" || !IsSpace(c[|c| - 1])
    requires Unbroken(c, q, " ")
    ensures Unbroken(c, q, "")
  {
    if c != "" {
      AfterSpacesKeeps(c, " ");
      AfterSpacesKeeps(c, "");
      AndHereExact(AfterSpaces(c), " ");
      AndHereExact(AfterSpaces(c), "");
      UnbrokenAlone(c[1..], Next(q, c[0]));
    }
  }

  /** A reading stays one with plain separators and no white space around it. */
  lemma {:induction false} PlainReading(leading: bool, cs: seq<string>, gaps: seq<string>)
    requires Reading(leading, cs, gaps)
    ensures Reading(false, cs, PlainGaps(|cs|))
    decreases |cs|
  {
    if |cs| == 1 {
      if gaps[0] != "" { UnbrokenAlone(cs[0], Outside); }
    } else {
      PlainReading(false, cs[1..], gaps[1..]);
      assert PlainGaps(|cs|)[1..] == PlainGaps(|cs[1..]|);
      PlainSeparator();
    }
  }

  /** Splitting the clauses joined with plain `and`s gives the same clauses again. */
  lemma {:induction false} SplitAgain(s: string)
    requires Split(s).Ok?
    ensures Split(Joined(Split(s).value)) == Split(s)
  {
    var cs := Split(s).value;
    var lead, gaps := SplitIsReading(s);
    JoinedIsBody(cs);
    PlainReading(lead != "", cs, gaps);
    assert "" + Joined(cs) == Joined(cs);
    ReadingIsSplit("", cs, PlainGaps(|cs|));
  }
}
