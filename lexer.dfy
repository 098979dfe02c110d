/**
 * The tokenizer (Tokenizer.cs): turns source text into a list of tokens.
 *
 * Each regular expression of the source is replaced by a hand-written
 * recogniser that returns the length of the prefix it matches.  Character
 * classes are ASCII: `\w` is letters, digits and underscore, `\d` the ten
 * digits and `\s` space, tab, line feed, vertical tab, form feed and
 * carriage return.
 */
module Tokenizer {
  import opened Errors
  import opened Tokens

  // ---------------------------------------------------------------------------
  // Character classes
  // ---------------------------------------------------------------------------

  predicate IsWordChar(c: char) {
    ('a' <= c <= 'z') || ('A' <= c <= 'Z') || ('0' <= c <= '9') || c == '_'
  }

  predicate IsDigit(c: char) {
    '0' <= c <= '9'
  }

  predicate IsSpace(c: char) {
    c == ' ' || ('\t' <= c <= '\r')
  }

  /** What `.` matches: anything but a line feed. */
  predicate IsNotNewline(c: char) {
    c != '\n'
  }

  predicate IsNotQuote(c: char) {
    c != '"'
  }

  // ---------------------------------------------------------------------------
  // Recognisers, one per pattern of the source
  // ---------------------------------------------------------------------------

  const Keywords: seq<string> := ["print", "if", "var", "const"]
  const FreeKeywords: seq<string> := ["true", "false", "else", "string", "num", "bool"]
  /** The operator alternatives in the order the pattern lists them: every
      two-character operator comes before its one-character prefix. */
  const Operators: seq<string> := ["++", "+", "-", "*", "/", "==", "!=", "!", "&", "|", ">=", "<=", ">", "<", "="]
  const PunctuationChars: string := "()[]{};"

  /** The end of the longest run of characters satisfying p that starts at i. */
  function Span(s: string, i: nat, p: char -> bool): (n: nat)
    requires i <= |s|
    ensures i <= n <= |s|
    decreases |s| - i
  {
    if i < |s| && p(s[i]) then Span(s, i + 1, p) else i
  }

  /** Span stops at the first character outside the class, and not before it. */
  lemma {:induction false} SpanMaximal(s: string, i: nat, p: char -> bool)
    requires i <= |s|
    ensures forall k :: i <= k < Span(s, i, p) ==> p(s[k])
    ensures Span(s, i, p) == |s| || !p(s[Span(s, i, p)])
    decreases |s| - i
  {
    if i < |s| && p(s[i]) {
      SpanMaximal(s, i + 1, p);
    }
  }

  /** A run of the class from i that stops at n ends exactly there. */
  lemma {:induction false} SpanEnds(s: string, i: nat, p: char -> bool, n: nat)
    requires i <= n <= |s|
    requires forall k :: i <= k < n ==> p(s[k])
    requires n == |s| || !p(s[n])
    ensures Span(s, i, p) == n
    decreases n - i
  {
    if i < n {
      SpanEnds(s, i + 1, p, n);
    }
  }

  predicate StartsWith(s: string, w: string) {
    |w| <= |s| && s[..|w|] == w
  }

  /** `\b` right after a prefix that ends in a word character. */
  predicate BoundaryAt(s: string, n: nat)
    requires n <= |s|
  {
    n == |s| || !IsWordChar(s[n])
  }

  /** One alternative matches at the start of the text, followed by `\b`
      when the pattern asks for it. */
  predicate AltMatches(rest: string, alt: string, boundary: bool) {
    StartsWith(rest, alt) && (!boundary || BoundaryAt(rest, |alt|))
  }

  /** An ordered alternation `^(a|b|...)`, optionally followed by `\b`: the
      first alternative that matches wins. */
  function AlternationLength(rest: string, alts: seq<string>, boundary: bool): (r: Option<nat>)
    requires forall k :: 0 <= k < |alts| ==> |alts[k]| > 0
    ensures r.Some? ==> 1 <= r.value <= |rest|
    decreases |alts|, |rest|
  {
    if alts == [] then None
    else if AltMatches(rest, alts[0], boundary) then Some(|alts[0]|)
    else AlternationLength(rest, alts[1..], boundary)
  }

  /** The first k >= from at which the text holds the closing `*` `/` of a block comment. */
  function CloseAt(s: string, from: nat): (r: Option<nat>)
    requires from <= |s|
    ensures r.Some? ==> from <= r.value && r.value + 1 < |s| && s[r.value] == '*' && s[r.value + 1] == '/'
    decreases |s| - from
  {
    if from + 1 >= |s| then None
    else if s[from] == '*' && s[from + 1] == '/' then Some(from)
    else CloseAt(s, from + 1)
  }

  // The comment pattern: a line comment (two slashes) runs up to the next
  // line feed; a block comment (slash, star) runs to the first closing
  // star-slash after it, lazily; an unclosed block comment does not match.
  function CommentLength(rest: string): (r: Option<nat>)
    ensures r.Some? ==> 2 <= r.value <= |rest| && rest[0] == '/'
  {
    if |rest| >= 2 && rest[0] == '/' && rest[1] == '/' then Some(Span(rest, 2, IsNotNewline))
    else if |rest| >= 2 && rest[0] == '/' && rest[1] == '*' then
      match CloseAt(rest, 2)
      case Some(k) => Some(k + 2)
      case None => None
    else None
  }

  /** `^\d*\.?\d+`: with backtracking this takes the integer digits, then a
      dot and fraction digits if at least one digit follows the dot, and
      otherwise just the integer digits (if there are any). */
  function NumberLength(rest: string): (r: Option<nat>)
    ensures r.Some? ==> 1 <= r.value <= |rest|
  {
    var d := Span(rest, 0, IsDigit);
    if d + 1 < |rest| && rest[d] == '.' && IsDigit(rest[d + 1]) then Some(Span(rest, d + 1, IsDigit))
    else if d > 0 then Some(d)
    else None
  }

  /** `^"[^"]*"`: a double quote, no quotes, a double quote. */
  function StringLength(rest: string): (r: Option<nat>)
    ensures r.Some? ==> 2 <= r.value <= |rest|
  {
    if |rest| > 0 && rest[0] == '"' then
      var k := Span(rest, 1, IsNotQuote);
      if k < |rest| then Some(k + 1) else None
    else None
  }

  /** A run of at least one character of the class p (`^\s+`, `^\w+`). */
  function RunLength(rest: string, p: char -> bool): (r: Option<nat>)
    ensures r.Some? ==> 1 <= r.value <= |rest|
  {
    var k := Span(rest, 0, p);
    if k > 0 then Some(k) else None
  }

  /** The pattern for one token type, applied to the text that remains. */
  function Recognise(kind: TokenType, rest: string): (r: Option<nat>)
    ensures r.Some? ==> 1 <= r.value <= |rest|
    ensures r.Some? && kind == TokenType.String ==> r.value >= 2
  {
    match kind
    case Keyword => AlternationLength(rest, Keywords, true)
    case FreeKeyword => AlternationLength(rest, FreeKeywords, true)
    case Whitespace => RunLength(rest, IsSpace)
    case Comment => CommentLength(rest)
    case Punctuation => if |rest| > 0 && rest[0] in PunctuationChars then Some(1) else None
    case Operator => AlternationLength(rest, Operators, false)
    case Number => NumberLength(rest)
    case String => StringLength(rest)
    case Identifier => RunLength(rest, IsWordChar)
    case EOF => None
  }

  /** The pattern table of the tokenizer: the token types in the order the
      tokenizer tries them (the insertion order of its dictionary). */
  const Recognisers: seq<TokenType> :=
    [Keyword, FreeKeyword, Whitespace, Comment, Punctuation, Operator, Number, TokenType.String, Identifier]

  /** A pattern for each token type: the length of the prefix of the text it
      matches, if any. */
  type Matcher = (TokenType, string) -> Option<nat>

  datatype Match = Match(kind: TokenType, length: nat)

  /** The first entry of the table whose pattern matches the text. */
  function FirstMatchIn(recognise: Matcher, table: seq<TokenType>, rest: string): Option<Match>
    decreases |table|, |rest|
  {
    if table == [] then None
    else
      match recognise(table[0], rest)
      case Some(n) => Some(Match(table[0], n))
      case None => FirstMatchIn(recognise, table[1..], rest)
  }

  /** What the scan needs of a pattern table: no entry is EOF, a match
      consumes at least one character and no more than remain, and a string
      match covers at least its two quotes. */
  ghost predicate WellFormed(recognise: Matcher, table: seq<TokenType>) {
    EOF !in table &&
    forall kind, rest :: recognise(kind, rest).Some? ==>
      1 <= recognise(kind, rest).value <= |rest| && (kind == TokenType.String ==> recognise(kind, rest).value >= 2)
  }

  /** A match found through a well-formed table satisfies what the scan needs. */
  lemma {:induction false} FirstMatchInBounds(recognise: Matcher, table: seq<TokenType>, rest: string)
    requires WellFormed(recognise, table)
    ensures FirstMatchIn(recognise, table, rest).Some? ==>
      var m := FirstMatchIn(recognise, table, rest).value;
      m.kind in table && m.kind != EOF && 1 <= m.length <= |rest| && (m.kind == TokenType.String ==> m.length >= 2)
    decreases |table|
  {
    if table != [] && recognise(table[0], rest).None? {
      FirstMatchInBounds(recognise, table[1..], rest);
    }
  }

  /** The first entry of the table whose pattern matches wins, whatever later entries would match. */
  lemma {:induction false} FirstMatchInPicks(recognise: Matcher, table: seq<TokenType>, rest: string, k: nat, n: nat)
    requires k < |table| && recognise(table[k], rest) == Some(n)
    requires forall j :: 0 <= j < k ==> recognise(table[j], rest).None?
    ensures FirstMatchIn(recognise, table, rest) == Some(Match(table[k], n))
    decreases k
  {
    if k > 0 {
      assert table[1..][k - 1] == table[k];
      FirstMatchInPicks(recognise, table[1..], rest, k - 1, n);
    }
  }

  /** A match names an entry of the table and the length its pattern matched. */
  lemma {:induction false} FirstMatchInSound(recognise: Matcher, table: seq<TokenType>, rest: string)
    ensures FirstMatchIn(recognise, table, rest).Some? ==>
      var m := FirstMatchIn(recognise, table, rest).value;
      m.kind in table && recognise(m.kind, rest) == Some(m.length)
    decreases |table|
  {
    if table != [] && recognise(table[0], rest).None? {
      FirstMatchInSound(recognise, table[1..], rest);
    }
  }

  /** Nothing matches exactly when no pattern of the table matches. */
  lemma {:induction false} FirstMatchInNone(recognise: Matcher, table: seq<TokenType>, rest: string)
    ensures FirstMatchIn(recognise, table, rest).None? <==>
      forall k :: 0 <= k < |table| ==> recognise(table[k], rest).None?
    decreases |table|
  {
    if table != [] {
      FirstMatchInNone(recognise, table[1..], rest);
      assert forall k :: 1 <= k < |table| ==> table[1..][k - 1] == table[k];
    }
  }

  /** The match the tokenizer commits to: the first pattern of its table that
      matches, not the longest. */
  function FirstMatch(rest: string): Option<Match> {
    FirstMatchIn(Recognise, Recognisers, rest)
  }

  /** The tokenizer's own table is well formed. */
  lemma RecognisersWellFormed()
    ensures WellFormed(Recognise, Recognisers)
  {
  }

  /** Whitespace and comments have no effect on execution and are dropped. */
  predicate IsCounted(kind: TokenType) {
    kind != Whitespace && kind != Comment
  }

  /** The token emitted for matched text: a string loses its first and last character (its quotes). */
  function MakeToken(kind: TokenType, text: string): (t: Token)
    requires kind == TokenType.String ==> |text| >= 2
  {
    if kind == TokenType.String then Token(kind, text[1..|text| - 1]) else Token(kind, text)
  }

  function Prepend(ts: seq<Token>, r: Result<seq<Token>>): Result<seq<Token>> {
    match r
    case Ok(rest) => Ok(ts + rest)
    case Err(e) => Err(e)
  }

  const UnexpectedCharacter: string := "Unexpected character found"

  /** What scanning the source from `offset` with a pattern table produces:
      the counted tokens up to the end, then EOF, or the error at the first
      offset the scan reaches where nothing matches. */
  function ScanFrom(recognise: Matcher, table: seq<TokenType>, source: string, offset: nat): Result<seq<Token>>
    requires WellFormed(recognise, table) && offset <= |source|
    decreases |source| - offset
  {
    if offset == |source| then Ok([Token(EOF, EofText)])
    else
      FirstMatchInBounds(recognise, table, source[offset..]);
      match FirstMatchIn(recognise, table, source[offset..])
      case None => Err(LexError(UnexpectedCharacter, offset, source[offset]))
      case Some(m) =>
        var tail := ScanFrom(recognise, table, source, offset + m.length);
        if IsCounted(m.kind) then Prepend([MakeToken(m.kind, source[offset..offset + m.length])], tail)
        else tail
  }

  /** The same scan as the tokenizer's loop performs it: `acc` holds the
      tokens already kept. */
  function ScanAcc(recognise: Matcher, table: seq<TokenType>, source: string, offset: nat, acc: seq<Token>): Result<seq<Token>>
    requires WellFormed(recognise, table) && offset <= |source|
    decreases |source| - offset
  {
    if offset == |source| then Ok(acc + [Token(EOF, EofText)])
    else
      FirstMatchInBounds(recognise, table, source[offset..]);
      match FirstMatchIn(recognise, table, source[offset..])
      case None => Err(LexError(UnexpectedCharacter, offset, source[offset]))
      case Some(m) =>
        var kept := if IsCounted(m.kind) then acc + [MakeToken(m.kind, source[offset..offset + m.length])] else acc;
        ScanAcc(recognise, table, source, offset + m.length, kept)
  }

  /** What the tokenizer produces for a whole source text. */
  function Lex(source: string): Result<seq<Token>> {
    RecognisersWellFormed();
    ScanFrom(Recognise, Recognisers, source, 0)
  }

  lemma PrependNothing(r: Result<seq<Token>>)
    ensures Prepend([], r) == r
  {
    if r.Ok? {
      assert [] + r.value == r.value;
    }
  }

  lemma PrependPrepend(a: seq<Token>, b: seq<Token>, r: Result<seq<Token>>)
    ensures Prepend(a, Prepend(b, r)) == Prepend(a + b, r)
  {
    if r.Ok? {
      assert a + (b + r.value) == (a + b) + r.value;
    }
  }

  /** The loop's accumulator only ever sits in front of what the rest of the text yields. */
  lemma {:induction false} ScanAccPrepend(recognise: Matcher, table: seq<TokenType>, source: string, offset: nat, acc: seq<Token>)
    requires WellFormed(recognise, table) && offset <= |source|
    ensures ScanAcc(recognise, table, source, offset, acc) == Prepend(acc, ScanFrom(recognise, table, source, offset))
    decreases |source| - offset
  {
    if offset < |source| {
      FirstMatchInBounds(recognise, table, source[offset..]);
      match FirstMatchIn(recognise, table, source[offset..])
      case None =>
      case Some(m) =>
        var tail := ScanFrom(recognise, table, source, offset + m.length);
        if IsCounted(m.kind) {
          var t := MakeToken(m.kind, source[offset..offset + m.length]);
          ScanAccPrepend(recognise, table, source, offset + m.length, acc + [t]);
          PrependPrepend(acc, [t], tail);
        } else {
          ScanAccPrepend(recognise, table, source, offset + m.length, acc);
        }
    }
  }

  /** The body of the tokenizer's `foreach` over its pattern table: try each
      pattern in order and stop at the first that matches. */
  method FindMatch(recognise: Matcher, table: seq<TokenType>, rest: string) returns (found: bool, kind: TokenType, length: nat)
    ensures found <==> FirstMatchIn(recognise, table, rest).Some?
    ensures found ==> FirstMatchIn(recognise, table, rest) == Some(Match(kind, length))
  {
    found, kind, length := false, EOF, 0;
    var i := 0;
    while i < |table| && !found
      invariant 0 <= i <= |table|
      invariant !found ==> FirstMatchIn(recognise, table, rest) == FirstMatchIn(recognise, table[i..], rest)
      invariant found ==> FirstMatchIn(recognise, table, rest) == Some(Match(kind, length))
      decreases |table| - i, if found then 0 else 1
    {
      var m := recognise(table[i], rest);
      if m.Some? {
        kind, length, found := table[i], m.value, true;
      } else {
        assert table[i..][1..] == table[i + 1..];
        i := i + 1;
      }
    }
  }

  /** The tokenizer's loop over a pattern table: scan left to right, at each
      offset commit to the first pattern that matches, keep the counted
      tokens, and append EOF. */
  method Scan(recognise: Matcher, table: seq<TokenType>, source: string) returns (r: Result<seq<Token>>)
    requires WellFormed(recognise, table)
    ensures r == ScanFrom(recognise, table, source, 0)
  {
    ScanAccPrepend(recognise, table, source, 0, []);
    PrependNothing(ScanFrom(recognise, table, source, 0));
    var offset: nat := 0;
    var tokens: seq<Token> := [];
    while offset < |source|
      invariant offset <= |source|
      invariant ScanAcc(recognise, table, source, offset, tokens) == ScanFrom(recognise, table, source, 0)
      decreases |source| - offset
    {
      FirstMatchInBounds(recognise, table, source[offset..]);
      var found, kind, length := FindMatch(recognise, table, source[offset..]);
      if !found {
        return Err(LexError(UnexpectedCharacter, offset, source[offset]));
      }
      var text := source[offset..offset + length];
      // A string token keeps the matched text without its quotes.
      if IsCounted(kind) {
        tokens := tokens + [MakeToken(kind, text)];
      }
      offset := offset + length;
    }
    tokens := tokens + [Token(EOF, EofText)];
    return Ok(tokens);
  }

  /** Tokenizer.Tokenize: the scan with the tokenizer's own pattern table. */
  method Tokenize(source: string) returns (r: Result<seq<Token>>)
    ensures r == Lex(source)
  {
    RecognisersWellFormed();
    r := Scan(Recognise, Recognisers, source);
  }

  // ---------------------------------------------------------------------------
  // Properties of the scan
  // ---------------------------------------------------------------------------

  /** The shape of every successful scan: exactly one EOF token, at the end;
      no whitespace or comment token; at most one token per character
      scanned, plus EOF. */
  predicate WellShaped(ts: seq<Token>, scanned: nat) {
    |ts| >= 1 && ts[|ts| - 1] == Token(EOF, EofText) &&
    (forall k :: 0 <= k < |ts| - 1 ==> ts[k].kind != EOF) &&
    (forall k :: 0 <= k < |ts| ==> IsCounted(ts[k].kind)) &&
    |ts| <= scanned + 1
  }

  lemma {:induction false} ScanFromShape(recognise: Matcher, table: seq<TokenType>, source: string, offset: nat)
    requires WellFormed(recognise, table) && offset <= |source|
    ensures ScanFrom(recognise, table, source, offset).Ok? ==>
      WellShaped(ScanFrom(recognise, table, source, offset).value, |source| - offset)
    decreases |source| - offset
  {
    if offset < |source| {
      FirstMatchInBounds(recognise, table, source[offset..]);
      match FirstMatchIn(recognise, table, source[offset..])
      case None =>
      case Some(m) =>
        ScanFromShape(recognise, table, source, offset + m.length);
    }
  }

  /** The scan from `offset` arrives at offset p: p is `offset` itself, or
      the first match at `offset` consumes input and the scan after it
      arrives at p. */
  predicate Reaches(recognise: Matcher, table: seq<TokenType>, source: string, offset: nat, p: nat)
    decreases p - offset
  {
    || offset == p
    || (&& offset < p <= |source|
        && match FirstMatchIn(recognise, table, source[offset..])
           case None => false
           case Some(m) => 0 < m.length && Reaches(recognise, table, source, offset + m.length, p))
  }

  /** A scan that fails stops at an offset it reached where no pattern of the
      table matches, and reports that offset and the character there. */
  lemma {:induction false} ScanFromError(recognise: Matcher, table: seq<TokenType>, source: string, offset: nat)
    requires WellFormed(recognise, table) && offset <= |source|
    ensures ScanFrom(recognise, table, source, offset).Err? ==>
      var e := ScanFrom(recognise, table, source, offset).error;
      e.LexError? && e.message == UnexpectedCharacter && offset <= e.position < |source| &&
      e.character == source[e.position] && FirstMatchIn(recognise, table, source[e.position..]).None? &&
      Reaches(recognise, table, source, offset, e.position)
    decreases |source| - offset
  {
    if offset < |source| {
      FirstMatchInBounds(recognise, table, source[offset..]);
      match FirstMatchIn(recognise, table, source[offset..])
      case None =>
      case Some(m) =>
        ScanFromError(recognise, table, source, offset + m.length);
    }
  }

  /** Tokenizing ends with exactly one EOF token, drops whitespace and
      comments, and yields at most one token per source character plus EOF. */
  lemma LexShape(source: string)
    ensures Lex(source).Ok? ==> WellShaped(Lex(source).value, |source|)
  {
    RecognisersWellFormed();
    ScanFromShape(Recognise, Recognisers, source, 0);
  }

  /** Tokenizing fails only with the invalid-token error for an offset of the
      source where no recogniser matches, carrying the character there. */
  lemma LexFailure(source: string)
    ensures Lex(source).Err? ==>
      var e := Lex(source).error;
      e.LexError? && e.message == UnexpectedCharacter && 0 <= e.position < |source| &&
      e.character == source[e.position] && FirstMatch(source[e.position..]).None? &&
      Reaches(Recognise, Recognisers, source, 0, e.position)
  {
    RecognisersWellFormed();
    ScanFromError(Recognise, Recognisers, source, 0);
  }

  // ---------------------------------------------------------------------------
  // The recognisers against the patterns they stand for
  // ---------------------------------------------------------------------------

  /** The alternation matches nothing exactly when no alternative matches. */
  lemma {:induction false} AlternationNone(rest: string, alts: seq<string>, boundary: bool)
    requires forall k :: 0 <= k < |alts| ==> |alts[k]| > 0
    ensures AlternationLength(rest, alts, boundary).None? <==>
      forall k :: 0 <= k < |alts| ==> !AltMatches(rest, alts[k], boundary)
    decreases |alts|
  {
    if alts != [] {
      AlternationNone(rest, alts[1..], boundary);
      assert forall k :: 1 <= k < |alts| ==> alts[1..][k - 1] == alts[k];
    }
  }

  /** What the alternation matches is one of its alternatives. */
  lemma {:induction false} AlternationSound(rest: string, alts: seq<string>, boundary: bool)
    requires forall k :: 0 <= k < |alts| ==> |alts[k]| > 0
    ensures AlternationLength(rest, alts, boundary).Some? ==>
      exists k :: 0 <= k < |alts| && AltMatches(rest, alts[k], boundary) &&
        AlternationLength(rest, alts, boundary).value == |alts[k]|
    decreases |alts|
  {
    if alts != [] && !AltMatches(rest, alts[0], boundary) {
      AlternationSound(rest, alts[1..], boundary);
      if AlternationLength(rest, alts, boundary).Some? {
        var k :| 0 <= k < |alts[1..]| && AltMatches(rest, alts[1..][k], boundary) &&
          AlternationLength(rest, alts[1..], boundary).value == |alts[1..][k]|;
        assert alts[1..][k] == alts[k + 1];
      }
    }
  }

  /** The alternation takes the first alternative that matches, whatever
      later alternatives might match. */
  lemma {:induction false} AlternationPicksFirst(rest: string, alts: seq<string>, boundary: bool, k: nat)
    requires forall j :: 0 <= j < |alts| ==> |alts[j]| > 0
    requires k < |alts| && AltMatches(rest, alts[k], boundary)
    requires forall j :: 0 <= j < k ==> !AltMatches(rest, alts[j], boundary)
    ensures AlternationLength(rest, alts, boundary) == Some(|alts[k]|)
    decreases k
  {
    if k > 0 {
      assert alts[1..][k - 1] == alts[k];
      AlternationPicksFirst(rest, alts[1..], boundary, k - 1);
    }
  }

  /** `CloseAt` finds the first closing star-slash, and there is none when it finds nothing. */
  lemma {:induction false} CloseAtFirst(s: string, from: nat)
    requires from <= |s|
    ensures CloseAt(s, from).Some? ==>
      forall j :: from <= j < CloseAt(s, from).value ==> !(s[j] == '*' && s[j + 1] == '/')
    ensures CloseAt(s, from).None? ==>
      forall j :: from <= j && j + 1 < |s| ==> !(s[j] == '*' && s[j + 1] == '/')
    decreases |s| - from
  {
    if from + 1 < |s| && !(s[from] == '*' && s[from + 1] == '/') {
      CloseAtFirst(s, from + 1);
    }
  }

  /** The run recognisers (`^\s+`, `^\w+`) take the longest non-empty run of their class. */
  lemma RunLengthSpec(rest: string, p: char -> bool, n: nat)
    ensures RunLength(rest, p) == Some(n) <==>
      1 <= n <= |rest| && (forall k :: 0 <= k < n ==> p(rest[k])) && (n == |rest| || !p(rest[n]))
  {
    SpanMaximal(rest, 0, p);
    if 1 <= n <= |rest| && (forall j :: 0 <= j < n ==> p(rest[j])) && (n == |rest| || !p(rest[n])) {
      SpanEnds(rest, 0, p, n);
    }
  }

  /** `^"[^"]*"`: the string recogniser matches exactly a quote, characters
      other than quotes, and the next quote. */
  lemma StringLengthSpec(rest: string, n: nat)
    ensures StringLength(rest) == Some(n) <==>
      2 <= n <= |rest| && rest[0] == '"' && rest[n - 1] == '"' && forall k :: 1 <= k < n - 1 ==> rest[k] != '"'
  {
    if |rest| > 0 && rest[0] == '"' {
      SpanMaximal(rest, 1, IsNotQuote);
      if 2 <= n <= |rest| && rest[n - 1] == '"' && forall j :: 1 <= j < n - 1 ==> rest[j] != '"' {
        SpanEnds(rest, 1, IsNotQuote, n - 1);
      }
    }
  }

  predicate AllDigits(t: string) {
    forall k :: 0 <= k < |t| ==> IsDigit(t[k])
  }

  /** What `\d*\.?\d+` matches as a whole: digits, or digits, a dot and at least one digit. */
  predicate IsNumberText(t: string) {
    (|t| > 0 && AllDigits(t)) ||
    exists p :: 0 <= p < |t| - 1 && t[p] == '.' && AllDigits(t[..p]) && AllDigits(t[p + 1..])
  }

  /** A number text with a dot has it right after the leading run of digits. */
  lemma DotAfterDigits(rest: string, m: nat, p: nat)
    requires m <= |rest| && p < m && rest[p] == '.' && AllDigits(rest[..m][..p])
    ensures p == Span(rest, 0, IsDigit)
  {
    assert forall k :: 0 <= k < p ==> rest[..m][..p][k] == rest[k];
    SpanEnds(rest, 0, IsDigit, p);
  }

  /** The number recogniser takes the longest prefix that `\d*\.?\d+` matches,
      and matches nothing when no prefix does. */
  lemma NumberLengthSpec(rest: string)
    ensures NumberLength(rest).Some? ==>
      var n := NumberLength(rest).value;
      IsNumberText(rest[..n]) && forall m :: n < m <= |rest| ==> !IsNumberText(rest[..m])
    ensures NumberLength(rest).None? ==> forall m :: 1 <= m <= |rest| ==> !IsNumberText(rest[..m])
  {
    SpanMaximal(rest, 0, IsDigit);
    var d := Span(rest, 0, IsDigit);
    var fraction := d + 1 < |rest| && rest[d] == '.' && IsDigit(rest[d + 1]);
    var e := if fraction then Span(rest, d + 1, IsDigit) else d;
    if fraction {
      SpanMaximal(rest, d + 1, IsDigit);
      assert rest[..e][..d] == rest[..d];
      assert IsNumberText(rest[..e]) by {
        assert rest[..e][d] == '.';
        assert AllDigits(rest[..e][d + 1..]);
      }
    } else if d > 0 {
      assert AllDigits(rest[..d]);
    }
    forall m | e < m <= |rest| || (!fraction && d == 0 && 1 <= m <= |rest|)
      ensures !IsNumberText(rest[..m])
    {
      assert !AllDigits(rest[..m]) by {
        assert rest[..m][d] == rest[d];
      }
      forall p | 0 <= p < m - 1 && rest[..m][p] == '.' && AllDigits(rest[..m][..p])
        ensures !AllDigits(rest[..m][p + 1..])
      {
        DotAfterDigits(rest, m, p);
        if fraction {
          SpanMaximal(rest, d + 1, IsDigit);
          assert rest[..m][p + 1..][e - d - 1] == rest[e];
        } else {
          assert rest[..m][p + 1..][0] == rest[d + 1];
        }
      }
    }
  }

  /** The comment recogniser: a line comment runs to the first line feed or
      the end; a block comment ends at the first star-slash after its opening. */
  lemma CommentLengthSpec(rest: string)
    ensures CommentLength(rest).Some? && rest[1] == '/' ==>
      var n := CommentLength(rest).value;
      (forall k :: 2 <= k < n ==> rest[k] != '\n') && (n == |rest| || rest[n] == '\n')
    ensures CommentLength(rest).Some? && rest[1] != '/' ==>
      var n := CommentLength(rest).value;
      rest[1] == '*' && 4 <= n && rest[n - 2] == '*' && rest[n - 1] == '/' &&
      forall j :: 2 <= j < n - 2 ==> !(rest[j] == '*' && rest[j + 1] == '/')
    ensures CommentLength(rest).None? <==>
      !(StartsWith(rest, "//") || (StartsWith(rest, "/*") && exists j :: 2 <= j && j + 1 < |rest| && rest[j] == '*' && rest[j + 1] == '/'))
  {
    if |rest| >= 2 {
      SpanMaximal(rest, 2, IsNotNewline);
      CloseAtFirst(rest, 2);
      assert StartsWith(rest, "//") <==> rest[0] == '/' && rest[1] == '/' by {
        assert |"//"| == 2;
        if rest[0] == '/' && rest[1] == '/' { assert rest[..2] == "//"; }
      }
      assert StartsWith(rest, "/*") <==> rest[0] == '/' && rest[1] == '*' by {
        if rest[0] == '/' && rest[1] == '*' { assert rest[..2] == "/*"; }
      }
    }
  }

  // ---------------------------------------------------------------------------
  // Which recogniser wins
  // ---------------------------------------------------------------------------

  predicate IsReserved(w: string) {
    w in Keywords || w in FreeKeywords
  }

  predicate IsLetter(c: char) {
    ('a' <= c <= 'z') || ('A' <= c <= 'Z')
  }

  /** Every reserved word starts with a letter of its own: no two share a first letter. */
  lemma ReservedFirstLetter(v: string, w: string)
    requires IsReserved(v) && IsReserved(w)
    ensures |w| > 0 && IsLetter(w[0])
    ensures v[0] == w[0] ==> v == w
  {
  }

  /** A text that starts with a reserved word can match no other reserved word. */
  lemma OnlyReservedWordMatches(rest: string, w: string, alts: seq<string>)
    requires IsReserved(w) && StartsWith(rest, w) && (alts == Keywords || alts == FreeKeywords)
    ensures forall k :: 0 <= k < |alts| && StartsWith(rest, alts[k]) ==> alts[k] == w
  {
    forall k | 0 <= k < |alts| && StartsWith(rest, alts[k])
      ensures alts[k] == w
    {
      ReservedFirstLetter(alts[k], w);
      ReservedFirstLetter(w, alts[k]);
      assert rest[0] == alts[k][0] && rest[0] == w[0];
    }
  }

  /** A reserved word followed by a word boundary is matched by the
      alternation that lists it, with its own length. */
  lemma ReservedWordMatches(rest: string, w: string, alts: seq<string>)
    requires w in alts && AltMatches(rest, w, true) && (alts == Keywords || alts == FreeKeywords)
    ensures AlternationLength(rest, alts, true) == Some(|w|)
  {
    OnlyReservedWordMatches(rest, w, alts);
    AlternationNone(rest, alts, true);
    AlternationSound(rest, alts, true);
  }

  /** No pattern other than the reserved words and identifiers matches a text
      that starts with a letter. */
  lemma LetterStart(rest: string)
    requires |rest| > 0 && IsLetter(rest[0])
    ensures Recognise(Whitespace, rest).None? && Recognise(Comment, rest).None?
    ensures Recognise(Punctuation, rest).None? && Recognise(Operator, rest).None?
    ensures Recognise(Number, rest).None? && Recognise(TokenType.String, rest).None?
  {
    WordStartIsNoOperator(rest);
  }

  /** No operator starts with a word character. */
  lemma WordStartIsNoOperator(rest: string)
    requires |rest| > 0 && IsWordChar(rest[0])
    ensures AlternationLength(rest, Operators, false).None?
  {
    forall k | 0 <= k < |Operators|
      ensures !StartsWith(rest, Operators[k])
    {
      assert |Operators[k]| <= |rest| ==> rest[..|Operators[k]|][0] == rest[0];
    }
    AlternationNone(rest, Operators, false);
  }

  /** The tokenizer's table: the first pattern that matches wins. */
  lemma FirstMatchIs(rest: string, k: nat, n: nat)
    requires k < |Recognisers| && Recognise(Recognisers[k], rest) == Some(n)
    requires forall j :: 0 <= j < k ==> Recognise(Recognisers[j], rest).None?
    ensures FirstMatch(rest) == Some(Match(Recognisers[k], n))
  {
    FirstMatchInPicks(Recognise, Recognisers, rest, k, n);
  }

  /** Without a word boundary after it, a reserved word matches neither reserved-word pattern. */
  lemma GluedWordIsNotReserved(rest: string, w: string, alts: seq<string>)
    requires IsReserved(w) && StartsWith(rest, w) && |w| < |rest| && IsWordChar(rest[|w|])
    requires alts == Keywords || alts == FreeKeywords
    ensures AlternationLength(rest, alts, true).None?
  {
    OnlyReservedWordMatches(rest, w, alts);
    AlternationNone(rest, alts, true);
  }

  /** A text that starts with neither a letter, a digit nor an underscore
      matches neither reserved-word pattern. */
  lemma SymbolStart(rest: string, alts: seq<string>)
    requires |rest| > 0 && !IsWordChar(rest[0]) && (alts == Keywords || alts == FreeKeywords)
    ensures AlternationLength(rest, alts, true).None?
  {
    forall k | 0 <= k < |alts|
      ensures !StartsWith(rest, alts[k])
    {
      ReservedFirstLetter(alts[k], alts[k]);
      assert |alts[k]| <= |rest| ==> rest[..|alts[k]|][0] == rest[0];
    }
    AlternationNone(rest, alts, true);
  }

  /** A reserved word glued to a further word character matches none of the
      patterns tried before the identifiers. */
  lemma GluedWordMisses(rest: string, w: string)
    requires IsReserved(w) && StartsWith(rest, w) && |w| < |rest| && IsWordChar(rest[|w|])
    ensures IsLetter(rest[0])
    ensures forall j :: 0 <= j < 8 ==> Recognise(Recognisers[j], rest).None?
  {
    GluedWordIsNotReserved(rest, w, Keywords);
    GluedWordIsNotReserved(rest, w, FreeKeywords);
    ReservedFirstLetter(w, w);
    assert rest[0] == rest[..|w|][0] == w[0];
    LetterStart(rest);
  }

  /** A keyword followed by a word boundary lexes as a Keyword, never as an identifier. */
  lemma KeywordWins(rest: string, w: string)
    requires w in Keywords && AltMatches(rest, w, true)
    ensures FirstMatch(rest) == Some(Match(Keyword, |w|))
  {
    ReservedWordMatches(rest, w, Keywords);
    FirstMatchIs(rest, 0, |w|);
  }

  /** A free keyword (`true`, `false`, `else`, the type names) followed by a
      word boundary lexes as a FreeKeyword, never as an identifier. */
  lemma FreeKeywordWins(rest: string, w: string)
    requires w in FreeKeywords && AltMatches(rest, w, true)
    ensures FirstMatch(rest) == Some(Match(FreeKeyword, |w|))
  {
    ReservedWordMatches(rest, w, FreeKeywords);
    OnlyReservedWordMatches(rest, w, Keywords);
    AlternationNone(rest, Keywords, true);
    FirstMatchIs(rest, 1, |w|);
  }

  /** A reserved word glued to a further word character (`printx`) is no
      keyword: the whole word run lexes as one Identifier. */
  lemma ReservedWordGlued(rest: string, w: string)
    requires IsReserved(w) && StartsWith(rest, w) && |w| < |rest| && IsWordChar(rest[|w|])
    ensures FirstMatch(rest) == Some(Match(Identifier, Span(rest, 0, IsWordChar)))
  {
    GluedWordMisses(rest, w);
    WordRun(rest);
    FirstMatchIs(rest, 8, Span(rest, 0, IsWordChar));
  }

  /** A text that starts with a letter matches the identifier pattern over
      its whole run of word characters. */
  lemma WordRun(rest: string)
    requires |rest| > 0 && IsLetter(rest[0])
    ensures Recognise(Identifier, rest) == Some(Span(rest, 0, IsWordChar))
  {
    RunStart(rest, IsWordChar);
  }

  /** A run of a class that starts at the first character is not empty. */
  lemma RunStart(rest: string, p: char -> bool)
    requires |rest| > 0 && p(rest[0])
    ensures RunLength(rest, p) == Some(Span(rest, 0, p))
  {
    assert Span(rest, 0, p) == Span(rest, 1, p);
  }

  /** A text that starts with an operator character other than a slash
      matches none of the patterns tried before the operators. */
  lemma OperatorStart(rest: string)
    requires |rest| > 0 && rest[0] in "+-*!&|><="
    ensures forall j :: 0 <= j < 5 ==> Recognise(Recognisers[j], rest).None?
  {
    SymbolStart(rest, Keywords);
    SymbolStart(rest, FreeKeywords);
  }

  /** An operator alternative matches when none listed before it starts with the same character. */
  lemma OperatorAt(rest: string, k: nat)
    requires k < |Operators| && StartsWith(rest, Operators[k])
    requires forall j :: 0 <= j < k ==> Operators[j][0] != Operators[k][0]
    ensures AlternationLength(rest, Operators, false) == Some(|Operators[k]|)
  {
    assert rest[0] == rest[..|Operators[k]|][0];
    forall j | 0 <= j < k
      ensures !AltMatches(rest, Operators[j], false)
    {
      assert |Operators[j]| <= |rest| ==> rest[..|Operators[j]|][0] == rest[0];
    }
    AlternationPicksFirst(rest, Operators, false, k);
  }

  /** `++`, `==`, `!=`, `>=` and `<=` each lex as a single Operator token. */
  lemma TwoCharOperators(rest: string, op: string)
    requires op in ["++", "==", "!=", ">=", "<="] && StartsWith(rest, op)
    ensures FirstMatch(rest) == Some(Match(Operator, 2))
  {
    if op == "++" {
      OperatorAt(rest, 0);
    } else if op == "==" {
      OperatorAt(rest, 5);
    } else if op == "!=" {
      OperatorAt(rest, 6);
    } else if op == ">=" {
      OperatorAt(rest, 10);
    } else {
      OperatorAt(rest, 11);
    }
    assert rest[0] == rest[..2][0] == op[0];
    OperatorStart(rest);
    FirstMatchIs(rest, 5, 2);
  }

  /** A String token's value is the matched text without its two quotes, and
      it holds no quote itself. */
  lemma StringTokenValue(rest: string, n: nat)
    requires FirstMatch(rest) == Some(Match(TokenType.String, n))
    ensures 2 <= n <= |rest| && rest[..n] == ['"'] + MakeToken(TokenType.String, rest[..n]).value + ['"']
    ensures '"' !in MakeToken(TokenType.String, rest[..n]).value
  {
    FirstMatchInSound(Recognise, Recognisers, rest);
    StringLengthSpec(rest, n);
    assert rest[..n] == ['"'] + rest[1..n - 1] + ['"'];
  }
}
