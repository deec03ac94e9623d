/**
 * The lexer of compiler.py (function tokenize): a scan of the source text with
 * an ordered list of thirteen rules. At each position the rules are tried in
 * their declared order and the first one that matches wins (the behaviour of an
 * alternation of named groups); a position where no rule matches is skipped.
 * Whitespace matches are dropped, and identifiers spelled "let" or "const" are
 * reclassified as keywords before they are appended.
 */
module Lexer {
  import opened Wrappers
  import opened Sequences

  /** The token kinds, one per rule of the token table (NUMBER ... DOT). */
  datatype TokenKind =
    | Number | Identifier | Equal | Let | Const | Colon | Semicolon
    | LParen | RParen | Comma | String | Whitespace | Dot

  /** A token: its kind and the text it was matched from. */
  datatype Token = Token(kind: TokenKind, text: string)

  /** The number of rules in the token table. */
  const RuleCount := 13

  /** The rules in the order in which the combined pattern alternates them (rule 0 is tried first). */
  function Rule(j: nat): TokenKind
    requires j < RuleCount
  {
    match j
    case 0 => Number
    case 1 => Identifier
    case 2 => Equal
    case 3 => Let
    case 4 => Const
    case 5 => Colon
    case 6 => Semicolon
    case 7 => LParen
    case 8 => RParen
    case 9 => Comma
    case 10 => String
    case 11 => Whitespace
    case _ => Dot
  }

  // Character classes, restricted to ASCII.

  predicate IsDigit(c: char) { '0' <= c <= '9' }

  predicate IsIdentStart(c: char) { 'a' <= c <= 'z' || 'A' <= c <= 'Z' || c == '_' }

  predicate IsIdentChar(c: char) { IsIdentStart(c) || IsDigit(c) }

  /** The ASCII characters that count as whitespace: tab to carriage return, the four separators 0x1C-0x1F, and space. */
  predicate IsSpace(c: char) { 9 <= c as int <= 13 || 28 <= c as int <= 31 || c == ' ' }

  /** The character classes the patterns use. */
  datatype CharClass = Digits | IdentHead | IdentTail | Spaces | NonQuote

  predicate InClass(c: char, cls: CharClass) {
    match cls
    case Digits => IsDigit(c)
    case IdentHead => IsIdentStart(c)
    case IdentTail => IsIdentChar(c)
    case Spaces => IsSpace(c)
    case NonQuote => c != '"'
  }

  predicate AllIn(t: string, cls: CharClass) {
    forall k :: 0 <= k < |t| ==> InClass(t[k], cls)
  }

  /**
   * The three shapes of regular expression in the token table: one character
   * of a class followed by a greedy run of a class (\d+, the identifier
   * pattern, \s+), a fixed word, and a double-quoted run of non-quotes.
   */
  datatype Pattern =
    | Repeat(first: CharClass, rest: CharClass)
    | Literal(word: string)
    | Quoted

  /** The pattern of each rule of the token table. */
  function PatternOf(kind: TokenKind): Pattern {
    match kind
    case Number => Repeat(Digits, Digits)
    case Identifier => Repeat(IdentHead, IdentTail)
    case Equal => Literal("=")
    case Let => Literal("let")
    case Const => Literal("const")
    case Colon => Literal(":")
    case Semicolon => Literal(";")
    case LParen => Literal("(")
    case RParen => Literal(")")
    case Comma => Literal(",")
    case String => Quoted
    case Whitespace => Repeat(Spaces, Spaces)
    case Dot => Literal(".")
  }

  /** The language of a pattern: the texts it matches as a whole. */
  predicate InPattern(p: Pattern, t: string) {
    match p
    case Repeat(first, rest) => |t| > 0 && InClass(t[0], first) && AllIn(t[1..], rest)
    case Literal(w) => t == w
    case Quoted => |t| >= 2 && t[0] == '"' && t[|t| - 1] == '"' && AllIn(t[1..|t| - 1], NonQuote)
  }

  /** Length of the longest run of characters of class cls starting at pos (lemma RunIsLongest). */
  function Run(s: string, pos: nat, cls: CharClass): (n: nat)
    requires pos <= |s|
    decreases |s| - pos
    ensures pos + n <= |s|
  {
    if pos < |s| && InClass(s[pos], cls) then 1 + Run(s, pos + 1, cls) else 0
  }

  /** |w| if the text continues with the word w at pos, 0 otherwise (lemma WordMatches). */
  function Word(s: string, pos: nat, w: string): (n: nat)
    requires pos <= |s|
    decreases |w|
    ensures n == 0 || (n == |w| && pos + n <= |s|)
  {
    if w == [] then 0
    else if pos < |s| && s[pos] == w[0] && (|w| == 1 || Word(s, pos + 1, w[1..]) > 0) then |w|
    else 0
  }

  /**
   * The length of the match of a pattern at pos, 0 when it does not match.
   * Every repetition in the table is greedy and nothing follows it but the
   * closing quote, so this is the longest prefix in the pattern's language
   * (lemma MatchIsLongestPrefix).
   */
  function MatchPattern(p: Pattern, s: string, pos: nat): (n: nat)
    requires pos <= |s|
    ensures pos + n <= |s|
  {
    match p
    case Repeat(first, rest) =>
      if pos < |s| && InClass(s[pos], first) then 1 + Run(s, pos + 1, rest) else 0
    case Literal(w) => Word(s, pos, w)
    case Quoted =>
      if pos < |s| && s[pos] == '"' then
        var q := Run(s, pos + 1, NonQuote);
        if pos + 1 + q < |s| then q + 2 else 0
      else 0
  }

  /** The length of the match of the rule for kind at pos. */
  function MatchRule(kind: TokenKind, s: string, pos: nat): (n: nat)
    requires pos <= |s|
    ensures pos + n <= |s|
  {
    MatchPattern(PatternOf(kind), s, pos)
  }

  /** A match: the kind of the winning rule and the matched length. */
  datatype Match = Match(kind: TokenKind, len: nat)

  /** The first rule of Rules[j..] that matches at pos (lemma FirstMatchIsFirst). */
  function FirstMatchFrom(s: string, pos: nat, j: nat): (r: Option<Match>)
    requires pos <= |s| && j <= RuleCount
    decreases RuleCount - j, |s| - pos
    ensures r.Some? ==> 0 < r.value.len && pos + r.value.len <= |s|
  {
    if j == RuleCount then None
    else
      var n := MatchRule(Rule(j), s, pos);
      if n > 0 then Some(Match(Rule(j), n)) else FirstMatchFrom(s, pos, j + 1)
  }

  /** The rule that wins at pos: the first of Rules that matches there. */
  function FirstMatch(s: string, pos: nat): (r: Option<Match>)
    requires pos <= |s|
    ensures r.Some? ==> pos < pos + r.value.len <= |s|
  {
    FirstMatchFrom(s, pos, 0)
  }

  /**
   * The length of each rule's match at pos, in table order (0 where the rule
   * does not match). With FirstRule it is a second formulation of
   * FirstMatchFrom, used only to prove FirstMatchIsFirst.
   */
  function Lengths(s: string, pos: nat): (lens: seq<nat>)
    requires pos <= |s|
    ensures |lens| == RuleCount
  {
    seq(RuleCount, j requires 0 <= j < RuleCount => MatchRule(Rule(j), s, pos))
  }

  /** The first rule at or after j with a non-empty length in lens (lemma FirstRuleIsFirst). */
  function FirstRule(lens: seq<nat>, j: nat): Option<Match>
    requires |lens| == RuleCount && j <= RuleCount
    decreases RuleCount - j, |lens|
  {
    if j == RuleCount then None
    else if lens[j] > 0 then Some(Match(Rule(j), lens[j]))
    else FirstRule(lens, j + 1)
  }

  /** The keyword reclassification applied to each matched identifier. */
  function Classify(kind: TokenKind, text: string): TokenKind {
    if kind == Identifier && text == "let" then Let
    else if kind == Identifier && text == "const" then Const
    else kind
  }

  /** The tokens of s[pos..], as the scan emits them. */
  function Scan(s: string, pos: nat): seq<Token>
    requires pos <= |s|
    decreases |s| - pos
  {
    if pos == |s| then []
    else
      match FirstMatch(s, pos)
      case None => Scan(s, pos + 1)
      case Some(m) =>
        var text := s[pos..pos + m.len];
        if m.kind == Whitespace then Scan(s, pos + m.len)
        else [Token(Classify(m.kind, text), text)] + Scan(s, pos + m.len)
  }

  /** The token list of a whole source text. */
  function Tokens(s: string): seq<Token> {
    Scan(s, 0)
  }

  /**
   * The start positions in s of the tokens Scan(s, pos) emits. It follows the
   * recursion of Scan and exists only to state TokensOccurInOrder.
   */
  function Starts(s: string, pos: nat): seq<nat>
    requires pos <= |s|
    decreases |s| - pos
  {
    if pos == |s| then []
    else
      match FirstMatch(s, pos)
      case None => Starts(s, pos + 1)
      case Some(m) =>
        if m.kind == Whitespace then Starts(s, pos + m.len)
        else [pos] + Starts(s, pos + m.len)
  }

  /** One step of the scan over an unmatched position. */
  lemma ScanSkip(s: string, pos: nat)
    requires pos < |s| && FirstMatch(s, pos).None?
    ensures Scan(s, pos) == Scan(s, pos + 1)
  {
  }

  /** One step of the scan over a match of kind kind and length len. */
  lemma ScanMatch(s: string, pos: nat, kind: TokenKind, len: nat)
    requires pos < |s| && FirstMatch(s, pos) == Some(Match(kind, len))
    ensures pos < pos + len <= |s|
    ensures kind == Whitespace ==> Scan(s, pos) == Scan(s, pos + len)
    ensures kind != Whitespace ==>
      Scan(s, pos) == [Token(Classify(kind, s[pos..pos + len]), s[pos..pos + len])] + Scan(s, pos + len)
  {
  }

  /** The tokenize loop: one step per match, or one character when nothing matches. */
  method Tokenize(s: string) returns (tokens: seq<Token>)
    ensures tokens == Tokens(s)
  {
    tokens := [];
    var pos := 0;
    while pos < |s|
      invariant pos <= |s|
      invariant tokens + Scan(s, pos) == Tokens(s)
      decreases |s| - pos
    {
      var m := FirstMatch(s, pos);
      if m.None? {
        ScanSkip(s, pos);
        pos := pos + 1;
      } else {
        var kind, len := m.value.kind, m.value.len;
        ScanMatch(s, pos, kind, len);
        var text := s[pos..pos + len];
        ghost var rest := Scan(s, pos + len);
        if kind != Whitespace {
          kind := Classify(kind, text);
          assert Scan(s, pos) == [Token(kind, text)] + rest;
          Assoc(tokens, [Token(kind, text)], rest);
          tokens := tokens + [Token(kind, text)];
        }
        pos := pos + len;
      }
    }
  }

  /**
   * A token whose text fits its kind: a whole match of the kind's pattern, and
   * for an identifier neither keyword. No whitespace token fits.
   */
  predicate WellFormed(t: Token) {
    t.kind != Whitespace && InPattern(PatternOf(t.kind), t.text) &&
    (t.kind == Identifier ==> t.text != "let" && t.text != "const")
  }

  // ---------------------------------------------------------------------------
  // Properties of the scanner
  // ---------------------------------------------------------------------------

  /** Run measures a run of cls characters that the next character does not extend. */
  lemma {:induction false} RunIsMaximal(s: string, pos: nat, cls: CharClass)
    requires pos <= |s|
    decreases |s| - pos
    ensures forall k :: pos <= k < pos + Run(s, pos, cls) ==> InClass(s[k], cls)
    ensures pos + Run(s, pos, cls) < |s| ==> !InClass(s[pos + Run(s, pos, cls)], cls)
  {
    if pos < |s| && InClass(s[pos], cls) {
      RunIsMaximal(s, pos + 1, cls);
    }
  }

  /** No run of class cls starting at pos is longer than the one Run measures. */
  lemma RunIsLongest(s: string, pos: nat, cls: CharClass)
    requires pos <= |s|
    ensures AllIn(s[pos..pos + Run(s, pos, cls)], cls)
    ensures forall m :: pos + Run(s, pos, cls) < m <= |s| ==> !AllIn(s[pos..m], cls)
  {
    var n := Run(s, pos, cls);
    RunIsMaximal(s, pos, cls);
    forall m | pos + n < m <= |s| ensures !AllIn(s[pos..m], cls) {
      assert s[pos..m][n] == s[pos + n];
    }
  }

  lemma RepeatIsLongest(first: CharClass, rest: CharClass, s: string, pos: nat)
    requires pos <= |s|
    ensures var n := MatchPattern(Repeat(first, rest), s, pos);
      (n > 0 ==> InPattern(Repeat(first, rest), s[pos..pos + n])) &&
      forall m :: pos + n < m <= |s| ==> !InPattern(Repeat(first, rest), s[pos..m])
  {
    var n := MatchPattern(Repeat(first, rest), s, pos);
    if pos < |s| && InClass(s[pos], first) {
      RunIsLongest(s, pos + 1, rest);
      assert s[pos..pos + n][1..] == s[pos + 1..pos + n];
      forall m | pos + n < m <= |s| ensures !InPattern(Repeat(first, rest), s[pos..m]) {
        assert s[pos..m][1..] == s[pos + 1..m];
      }
    } else {
      forall m | pos < m <= |s| ensures !InPattern(Repeat(first, rest), s[pos..m]) {
        assert s[pos..m][0] == s[pos];
      }
    }
  }

  /** Word finds w at pos exactly when the text continues with w there. */
  lemma {:induction false} WordMatches(s: string, pos: nat, w: string)
    requires pos <= |s|
    decreases |w|
    ensures Word(s, pos, w) > 0 <==> |w| > 0 && pos + |w| <= |s| && s[pos..pos + |w|] == w
  {
    if |w| > 1 && pos < |s| {
      WordMatches(s, pos + 1, w[1..]);
      if pos + |w| <= |s| {
        assert s[pos..pos + |w|] == [s[pos]] + s[pos + 1..pos + |w|];
        assert w == [w[0]] + w[1..];
      }
    } else if |w| == 1 && pos < |s| {
      assert s[pos..pos + 1] == [s[pos]];
    }
  }

  lemma LiteralIsLongest(w: string, s: string, pos: nat)
    requires pos <= |s|
    ensures var n := MatchPattern(Literal(w), s, pos);
      (n > 0 ==> InPattern(Literal(w), s[pos..pos + n])) &&
      forall m :: pos + n < m <= |s| ==> !InPattern(Literal(w), s[pos..m])
  {
    WordMatches(s, pos, w);
  }

  /** A quote closed at pos + 1 + q: the text up to the closing quote is a string literal. */
  lemma ClosedQuoteMatches(s: string, pos: nat, q: nat)
    requires pos < |s| && s[pos] == '"' && q == Run(s, pos + 1, NonQuote) && pos + 1 + q < |s|
    ensures InPattern(Quoted, s[pos..pos + q + 2])
  {
    RunIsMaximal(s, pos + 1, NonQuote);
    var t := s[pos..pos + q + 2];
    var inner := t[1..|t| - 1];
    forall k | 0 <= k < |inner| ensures InClass(inner[k], NonQuote) {
      assert inner[k] == s[pos + 1 + k];
    }
    assert t[0] == '"' && t[|t| - 1] == s[pos + 1 + q];
  }

  /** A quote closed at pos + 1 + q: no text running past the closing quote is a string literal. */
  lemma ClosedQuoteIsLongest(s: string, pos: nat, q: nat)
    requires pos < |s| && q == Run(s, pos + 1, NonQuote) && pos + 1 + q < |s|
    ensures forall m :: pos + q + 2 < m <= |s| ==> !InPattern(Quoted, s[pos..m])
  {
    RunIsMaximal(s, pos + 1, NonQuote);
    forall m | pos + q + 2 < m <= |s| ensures !InPattern(Quoted, s[pos..m]) {
      var u := s[pos..m];
      assert u[1..|u| - 1][q] == s[pos + 1 + q];
    }
  }


  /** A quote that is never closed starts no string literal. */
  lemma OpenQuoteNoMatch(s: string, pos: nat)
    requires pos < |s| && pos + 1 + Run(s, pos + 1, NonQuote) == |s|
    ensures forall m :: pos < m <= |s| ==> !InPattern(Quoted, s[pos..m])
  {
    var q := Run(s, pos + 1, NonQuote);
    RunIsMaximal(s, pos + 1, NonQuote);
    forall m | pos < m <= |s| ensures !InPattern(Quoted, s[pos..m]) {
      if m - pos >= 2 {
        assert InClass(s[m - 1], NonQuote);
        assert s[pos..m][m - pos - 1] == s[m - 1];
      }
    }
  }

  lemma QuotedIsLongest(s: string, pos: nat)
    requires pos <= |s|
    ensures var n := MatchPattern(Quoted, s, pos);
      (n > 0 ==> InPattern(Quoted, s[pos..pos + n])) &&
      forall m :: pos + n < m <= |s| ==> !InPattern(Quoted, s[pos..m])
  {
    if pos < |s| && s[pos] == '"' {
      var q := Run(s, pos + 1, NonQuote);
      if pos + 1 + q < |s| {
        ClosedQuoteMatches(s, pos, q);
        ClosedQuoteIsLongest(s, pos, q);
      } else {
        OpenQuoteNoMatch(s, pos);
      }
    } else {
      forall m | pos < m <= |s| ensures !InPattern(Quoted, s[pos..m]) {
        assert s[pos..m][0] == s[pos];
      }
    }
  }


  /** Each pattern matches the longest prefix of s[pos..] in its language, or nothing. */
  lemma MatchIsLongestPrefix(p: Pattern, s: string, pos: nat)
    requires pos <= |s|
    ensures var n := MatchPattern(p, s, pos);
      (n > 0 ==> InPattern(p, s[pos..pos + n])) &&
      forall m :: pos + n < m <= |s| ==> !InPattern(p, s[pos..m])
  {
    match p
    case Repeat(first, rest) => RepeatIsLongest(first, rest, s, pos);
    case Literal(w) => LiteralIsLongest(w, s, pos);
    case Quoted => QuotedIsLongest(s, pos);
  }

  /** The ordered choice over the rules is the ordered choice over the table of their lengths. */
  lemma {:induction false} FirstMatchFromIsFirstRule(s: string, pos: nat, j: nat)
    requires pos <= |s| && j <= RuleCount
    decreases RuleCount - j
    ensures FirstMatchFrom(s, pos, j) == FirstRule(Lengths(s, pos), j)
  {
    if j < RuleCount {
      FirstMatchFromIsFirstRule(s, pos, j + 1);
    }
  }

  /** FirstRule picks the first rule with a non-empty length: none before it, and none at all when it finds nothing. */
  lemma {:induction false} FirstRuleIsFirst(lens: seq<nat>, j: nat)
    requires |lens| == RuleCount && j <= RuleCount
    decreases RuleCount - j
    ensures FirstRule(lens, j).None? <==> forall k :: j <= k < RuleCount ==> lens[k] == 0
    ensures FirstRule(lens, j).Some? ==>
      exists w :: j <= w < RuleCount && FirstRule(lens, j).value == Match(Rule(w), lens[w]) &&
        forall k :: j <= k < w ==> lens[k] == 0
  {
    if j < RuleCount && lens[j] == 0 {
      FirstRuleIsFirst(lens, j + 1);
    } else if j < RuleCount {
      assert FirstRule(lens, j).value == Match(Rule(j), lens[j]);
    }
  }

  /** The winning rule is the first rule, in table order, whose match is non-empty. */
  lemma FirstMatchIsFirst(s: string, pos: nat)
    requires pos <= |s|
    ensures FirstMatch(s, pos).None? <==> forall k :: 0 <= k < RuleCount ==> MatchRule(Rule(k), s, pos) == 0
    ensures FirstMatch(s, pos).Some? ==>
      var m := FirstMatch(s, pos).value;
      m.len == MatchRule(m.kind, s, pos) &&
      exists w :: 0 <= w < RuleCount && Rule(w) == m.kind &&
        forall k :: 0 <= k < w ==> MatchRule(Rule(k), s, pos) == 0
  {
    var lens := Lengths(s, pos);
    FirstMatchFromIsFirstRule(s, pos, 0);
    FirstRuleIsFirst(lens, 0);
    assert forall k :: 0 <= k < RuleCount ==> lens[k] == MatchRule(Rule(k), s, pos);
  }

  /** The characters a match of p can begin with. */
  predicate CanStart(p: Pattern, c: char) {
    match p
    case Repeat(first, _) => InClass(c, first)
    case Literal(w) => |w| > 0 && c == w[0]
    case Quoted => c == '"'
  }

  /** A pattern matches only where the text continues with a character it can begin with. */
  lemma MatchNeedsStart(p: Pattern, s: string, pos: nat)
    requires pos <= |s|
    ensures MatchPattern(p, s, pos) > 0 ==> pos < |s| && CanStart(p, s[pos])
  {
  }

  /** Rule j wins at pos when it matches there and no earlier rule does. */
  lemma RuleWins(s: string, pos: nat, j: nat)
    requires pos <= |s| && j < RuleCount
    requires MatchRule(Rule(j), s, pos) > 0
    requires forall k :: 0 <= k < j ==> MatchRule(Rule(k), s, pos) == 0
    ensures FirstMatch(s, pos) == Some(Match(Rule(j), MatchRule(Rule(j), s, pos)))
  {
    FirstMatchIsFirst(s, pos);
    var m := FirstMatch(s, pos).value;
    var w :| 0 <= w < RuleCount && Rule(w) == m.kind &&
      forall k :: 0 <= k < w ==> MatchRule(Rule(k), s, pos) == 0;
    assert w == j;
  }

  /** A digit starts a number token: the whole run of digits. */
  lemma DigitStartsNumber(s: string, pos: nat)
    requires pos < |s| && IsDigit(s[pos])
    ensures FirstMatch(s, pos) == Some(Match(Number, 1 + Run(s, pos + 1, Digits)))
  {
    RuleWins(s, pos, 0);
  }

  /** A letter or underscore starts an identifier: the whole run of identifier characters. */
  lemma LetterStartsIdentifier(s: string, pos: nat)
    requires pos < |s| && IsIdentStart(s[pos])
    ensures FirstMatch(s, pos) == Some(Match(Identifier, 1 + Run(s, pos + 1, IdentTail)))
  {
    RuleWins(s, pos, 1);
  }

  /** A punctuation character is a token of its own. */
  lemma PunctuationIsToken(s: string, pos: nat, kind: TokenKind)
    requires pos < |s|
    requires kind in {Equal, Colon, Semicolon, LParen, RParen, Comma, Dot}
    requires PatternOf(kind) == Literal([s[pos]])
    ensures FirstMatch(s, pos) == Some(Match(kind, 1))
  {
    var j := match kind
      case Equal => 2 case Colon => 5 case Semicolon => 6 case LParen => 7
      case RParen => 8 case Comma => 9 case _ => 12;
    forall k | 0 <= k < j ensures MatchRule(Rule(k), s, pos) == 0 {
      MatchNeedsStart(PatternOf(Rule(k)), s, pos);
    }
    RuleWins(s, pos, j);
  }

  /** A double quote with a later double quote starts a string token up to the nearest one. */
  lemma QuoteStartsString(s: string, pos: nat)
    requires pos < |s| && s[pos] == '"' && pos + 1 + Run(s, pos + 1, NonQuote) < |s|
    ensures FirstMatch(s, pos) == Some(Match(String, Run(s, pos + 1, NonQuote) + 2))
  {
    forall k | 0 <= k < 10 ensures MatchRule(Rule(k), s, pos) == 0 {
      MatchNeedsStart(PatternOf(Rule(k)), s, pos);
    }
    RuleWins(s, pos, 10);
  }

  /** A whitespace character starts a whitespace match: the whole run of whitespace. */
  lemma SpaceStartsWhitespace(s: string, pos: nat)
    requires pos < |s| && IsSpace(s[pos])
    ensures FirstMatch(s, pos) == Some(Match(Whitespace, Run(s, pos, Spaces)))
  {
    var c := s[pos];
    assert c != '=' && c != ':' && c != ';' && c != '(' && c != ')' && c != ',' && c != '"';
    assert c != 'l' && c != 'c' && !IsDigit(c) && !IsIdentStart(c);
    forall k | 0 <= k < 11 ensures MatchRule(Rule(k), s, pos) == 0 {
      MatchNeedsStart(PatternOf(Rule(k)), s, pos);
    }
    assert MatchRule(Whitespace, s, pos) == Run(s, pos, Spaces);
    RuleWins(s, pos, 11);
  }

  // One scan step at a position whose first character decides the rule.

  /** A punctuation character gives a token of its own, and the scan goes on after it. */
  lemma ScanPunctuation(s: string, pos: nat, kind: TokenKind)
    requires pos < |s|
    requires kind in {Equal, Colon, Semicolon, LParen, RParen, Comma, Dot}
    requires PatternOf(kind) == Literal([s[pos]])
    ensures Scan(s, pos) == [Token(kind, [s[pos]])] + Scan(s, pos + 1)
  {
    PunctuationIsToken(s, pos, kind);
    ScanMatch(s, pos, kind, 1);
    assert s[pos..pos + 1] == [s[pos]];
  }

  /** A single whitespace character is skipped. */
  lemma ScanBlank(s: string, pos: nat)
    requires pos < |s| && IsSpace(s[pos])
    requires pos + 1 == |s| || !IsSpace(s[pos + 1])
    ensures Scan(s, pos) == Scan(s, pos + 1)
  {
    assert Run(s, pos + 1, Spaces) == 0;
    SpaceStartsWhitespace(s, pos);
    ScanMatch(s, pos, Whitespace, 1);
  }

  /** A run of identifier characters of length len gives an identifier or keyword token. */
  lemma ScanIdentifier(s: string, pos: nat, len: nat)
    requires pos < |s| && IsIdentStart(s[pos]) && len == 1 + Run(s, pos + 1, IdentTail)
    ensures pos + len <= |s|
    ensures Scan(s, pos) == [Token(Classify(Identifier, s[pos..pos + len]), s[pos..pos + len])] + Scan(s, pos + len)
  {
    LetterStartsIdentifier(s, pos);
    ScanMatch(s, pos, Identifier, len);
  }

  /** Run counts exactly the characters of the class before the first one outside it. */
  lemma {:induction false} RunExactly(s: string, pos: nat, cls: CharClass, k: nat)
    requires pos + k <= |s|
    requires forall i :: pos <= i < pos + k ==> InClass(s[i], cls)
    requires pos + k == |s| || !InClass(s[pos + k], cls)
    ensures Run(s, pos, cls) == k
    decreases k
  {
    if k > 0 {
      RunExactly(s, pos + 1, cls, k - 1);
    }
  }

  /** A word of identifier characters not followed by one is scanned as one token, a keyword or an identifier. */
  lemma ScanWord(s: string, pos: nat, w: string)
    requires pos + |w| <= |s| && s[pos..pos + |w|] == w
    requires |w| > 0 && IsIdentStart(w[0]) && AllIn(w, IdentTail)
    requires pos + |w| == |s| || !IsIdentChar(s[pos + |w|])
    ensures Scan(s, pos) == [Token(Classify(Identifier, w), w)] + Scan(s, pos + |w|)
  {
    assert forall i :: pos + 1 <= i < pos + |w| ==> s[i] == w[i - pos];
    RunExactly(s, pos + 1, IdentTail, |w| - 1);
    ScanIdentifier(s, pos, |w|);
  }

  /** A run of digits of length len gives a number token. */
  lemma ScanNumber(s: string, pos: nat, len: nat)
    requires pos < |s| && IsDigit(s[pos]) && len == 1 + Run(s, pos + 1, Digits)
    ensures pos + len <= |s|
    ensures Scan(s, pos) == [Token(Number, s[pos..pos + len])] + Scan(s, pos + len)
  {
    DigitStartsNumber(s, pos);
    ScanMatch(s, pos, Number, len);
  }

  /** A closed double-quoted text of length len gives a string token. */
  lemma ScanString(s: string, pos: nat, len: nat)
    requires pos < |s| && s[pos] == '"' && pos + 1 + Run(s, pos + 1, NonQuote) < |s|
    requires len == Run(s, pos + 1, NonQuote) + 2
    ensures pos + len <= |s|
    ensures Scan(s, pos) == [Token(String, s[pos..pos + len])] + Scan(s, pos + len)
  {
    QuoteStartsString(s, pos);
    ScanMatch(s, pos, String, len);
  }

  /** The LET and CONST rules come after IDENTIFIER, so they never win a position. */
  lemma KeywordRulesNeverWin(s: string, pos: nat)
    requires pos <= |s|
    ensures FirstMatch(s, pos).Some? ==>
      FirstMatch(s, pos).value.kind != Let && FirstMatch(s, pos).value.kind != Const
  {
    FirstMatchIsFirst(s, pos);
    if pos < |s| && IsIdentStart(s[pos]) {
      assert MatchRule(Rule(1), s, pos) > 0;
    } else {
      assert MatchRule(Let, s, pos) == 0 && MatchRule(Const, s, pos) == 0;
    }
  }

  /** Every token the scan emits fits its kind; in particular none is whitespace. */
  lemma {:induction false} ScanWellFormed(s: string, pos: nat)
    requires pos <= |s|
    decreases |s| - pos
    ensures forall t :: t in Scan(s, pos) ==> WellFormed(t)
  {
    if pos < |s| {
      var m := FirstMatch(s, pos);
      if m.None? {
        ScanSkip(s, pos);
        ScanWellFormed(s, pos + 1);
      } else {
        var kind, len := m.value.kind, m.value.len;
        ScanMatch(s, pos, kind, len);
        ScanWellFormed(s, pos + len);
        var rest := Scan(s, pos + len);
        if kind != Whitespace {
          MatchedTokenWellFormed(s, pos);
          var text := s[pos..pos + len];
          var tok := Token(Classify(kind, text), text);
          assert WellFormed(tok);
          assert Scan(s, pos) == [tok] + rest;
        } else {
          assert Scan(s, pos) == rest;
        }
      }
    }
  }

  /** The token emitted for the winning match at pos, if any, fits its kind. */
  lemma MatchedTokenWellFormed(s: string, pos: nat)
    requires pos <= |s| && FirstMatch(s, pos).Some?
    ensures var m := FirstMatch(s, pos).value;
      m.kind != Whitespace ==>
        WellFormed(Token(Classify(m.kind, s[pos..pos + m.len]), s[pos..pos + m.len]))
  {
    var m := FirstMatch(s, pos).value;
    MatchedLength(s, pos, 0);
    MatchIsLongestPrefix(PatternOf(m.kind), s, pos);
    var text := s[pos..pos + m.len];
    assert InPattern(PatternOf(m.kind), text);
    if m.kind != Whitespace {
      ClassifiedWellFormed(m.kind, text);
    }
  }

  /** The length of the winning match is its rule's match length. */
  lemma {:induction false} MatchedLength(s: string, pos: nat, j: nat)
    requires pos <= |s| && j <= RuleCount
    decreases RuleCount - j
    ensures FirstMatchFrom(s, pos, j).Some? ==>
      FirstMatchFrom(s, pos, j).value.len == MatchRule(FirstMatchFrom(s, pos, j).value.kind, s, pos)
  {
    if j < RuleCount && MatchRule(Rule(j), s, pos) == 0 {
      MatchedLength(s, pos, j + 1);
    }
  }

  /** A text that matches its rule's pattern as a whole gives a well-formed token once reclassified. */
  lemma ClassifiedWellFormed(kind: TokenKind, text: string)
    requires kind != Whitespace && InPattern(PatternOf(kind), text)
    ensures WellFormed(Token(Classify(kind, text), text))
  {
  }

  /** A well-formed token is spelled "let" or "const" exactly when it is a keyword. */
  lemma KeywordTexts(t: Token)
    requires WellFormed(t)
    ensures t.text == "let" <==> t.kind == Let
    ensures t.text == "const" <==> t.kind == Const
  {
    if t.text == "let" {
      assert t.text[0] == 'l' && t.text[1..] == "et";
    }
    if t.text == "const" {
      assert t.text[0] == 'c' && t.text[1..] == "onst";
    }
  }

  /**
   * The token invariants of tokenize: no whitespace token, every token's text
   * fits its kind, and the texts "let" and "const" occur exactly as the two
   * keyword kinds (so no identifier carries either text).
   */
  lemma TokensWellFormed(s: string)
    ensures forall t :: t in Tokens(s) ==> t.kind != Whitespace && WellFormed(t)
    ensures forall t :: t in Tokens(s) ==>
      (t.text == "let" <==> t.kind == Let) && (t.text == "const" <==> t.kind == Const)
  {
    ScanWellFormed(s, 0);
    forall t | t in Tokens(s)
      ensures (t.text == "let" <==> t.kind == Let) && (t.text == "const" <==> t.kind == Const)
    {
      KeywordTexts(t);
    }
  }

  /** Starts advances exactly as Scan does. */
  lemma StartsStep(s: string, pos: nat)
    requires pos < |s|
    ensures FirstMatch(s, pos).None? ==> Starts(s, pos) == Starts(s, pos + 1)
    ensures FirstMatch(s, pos).Some? ==>
      var m := FirstMatch(s, pos).value;
      Starts(s, pos) == if m.kind == Whitespace then Starts(s, pos + m.len) else [pos] + Starts(s, pos + m.len)
  {
  }

  /**
   * toks[k] is the text of s at st[k], no token starts before pos, and each
   * token ends at or before the start of the next one.
   */
  predicate Located(s: string, toks: seq<Token>, st: seq<nat>, pos: nat) {
    |st| == |toks| &&
    (forall k :: 0 <= k < |toks| ==> pos <= st[k] && TextAt(s, toks[k].text, st[k])) &&
    (forall k :: 0 <= k < |toks| - 1 ==> st[k] + |toks[k].text| <= st[k + 1])
  }

  /** s continues with the text t at p. */
  predicate TextAt(s: string, t: string, p: nat) {
    p + |t| <= |s| && s[p..p + |t|] == t
  }

  /** Tokens located from next on are located from any earlier position. */
  lemma LocatedFrom(s: string, toks: seq<Token>, st: seq<nat>, pos: nat, next: nat)
    requires Located(s, toks, st, next) && pos <= next
    ensures Located(s, toks, st, pos)
  {
  }

  lemma LocatedCons(s: string, t: Token, p: nat, toks: seq<Token>, st: seq<nat>, pos: nat, next: nat)
    requires Located(s, toks, st, next)
    requires pos <= p && p + |t.text| <= next <= |s| && TextAt(s, t.text, p)
    ensures Located(s, [t] + toks, [p] + st, pos)
  {
    var toks', st' := [t] + toks, [p] + st;
    forall k | 0 <= k < |toks'|
      ensures pos <= st'[k] && TextAt(s, toks'[k].text, st'[k])
    {
      if k == 0 {
        assert toks'[0] == t && st'[0] == p;
      } else {
        assert toks'[k] == toks[k - 1] && st'[k] == st[k - 1];
      }
    }
    forall k | 0 <= k < |toks'| - 1
      ensures st'[k] + |toks'[k].text| <= st'[k + 1]
    {
      if k == 0 {
        assert toks'[0] == t && st'[0] == p && st'[1] == st[0];
      } else {
        assert toks'[k] == toks[k - 1] && st'[k] == st[k - 1] && st'[k + 1] == st[k];
      }
    }
  }

  /**
   * The token texts occur in the input, left to right, at non-overlapping
   * positions: token k is the text at Starts(s, pos)[k].
   */
  lemma {:induction false} ScanOccursInOrder(s: string, pos: nat)
    requires pos <= |s|
    decreases |s| - pos
    ensures Located(s, Scan(s, pos), Starts(s, pos), pos)
  {
    if pos < |s| {
      var m := FirstMatch(s, pos);
      StartsStep(s, pos);
      if m.None? {
        ScanSkip(s, pos);
        ScanOccursInOrder(s, pos + 1);
        LocatedFrom(s, Scan(s, pos + 1), Starts(s, pos + 1), pos, pos + 1);
      } else {
        var kind, len := m.value.kind, m.value.len;
        ScanMatch(s, pos, kind, len);
        ScanOccursInOrder(s, pos + len);
        var rest, restStarts := Scan(s, pos + len), Starts(s, pos + len);
        if kind != Whitespace {
          var text := s[pos..pos + len];
          var tok := Token(Classify(kind, text), text);
          assert Scan(s, pos) == [tok] + rest;
          assert Starts(s, pos) == [pos] + restStarts;
          LocatedCons(s, tok, pos, rest, restStarts, pos, pos + len);
        } else {
          assert Scan(s, pos) == rest && Starts(s, pos) == restStarts;
          LocatedFrom(s, rest, restStarts, pos, pos + len);
        }
      }
    }
  }

  /** The token texts of s occur in s left to right, at the positions Starts(s, 0), without overlapping. */
  lemma TokensOccurInOrder(s: string)
    ensures Located(s, Tokens(s), Starts(s, 0), 0)
  {
    ScanOccursInOrder(s, 0);
  }

  /** A character that can start no rule. */
  predicate StartsNoRule(c: char) {
    !IsIdentChar(c) && !IsSpace(c) && c !in "=:;(),\"."
  }

  /** A character that starts no rule is skipped: the scan goes on at the next character. */
  lemma UnmatchedCharSkipped(s: string, pos: nat)
    requires pos < |s| && StartsNoRule(s[pos])
    ensures FirstMatch(s, pos).None?
    ensures Scan(s, pos) == Scan(s, pos + 1)
  {
    forall k | 0 <= k < RuleCount ensures MatchRule(Rule(k), s, pos) == 0 {
    }
    FirstMatchIsFirst(s, pos);
    ScanSkip(s, pos);
  }

  /** A double quote that no later double quote closes is skipped like any unmatched character. */
  lemma UnterminatedStringSkipped(s: string, pos: nat)
    requires pos < |s| && s[pos] == '"'
    requires forall k :: pos < k < |s| ==> s[k] != '"'
    ensures FirstMatch(s, pos).None?
    ensures Scan(s, pos) == Scan(s, pos + 1)
  {
    RunIsMaximal(s, pos + 1, NonQuote);
    assert pos + 1 + Run(s, pos + 1, NonQuote) == |s|;
    forall k | 0 <= k < RuleCount ensures MatchRule(Rule(k), s, pos) == 0 {
    }
    FirstMatchIsFirst(s, pos);
    ScanSkip(s, pos);
  }
}
