/**
 * Four source texts and the code the compiler produces for them: two
 * declarations, a call of console.log with three kinds of argument, and a
 * call whose semicolon is missing, which produces no code.
 *
 * Each text is described by a predicate that lists its characters (and holds
 * of that text alone); the last four lemmas restate the results on the
 * literal texts. The tokens are found from the end of the text
 * backwards, one lemma per token, each building on the one for the rest of
 * the text.
 */
module Examples {
  import opened Wrappers
  import opened Lexer
  import opened Parser
  import opened Generator
  import opened Pipeline

  // ---------------------------------------------------------------------------
  // Scan steps shared by the examples
  // ---------------------------------------------------------------------------

  /**
   * A punctuation character c at pos is a token of kind kind. Unlike
   * ScanPunctuation, the token text is the literal [c], so the token lists
   * below can be matched without rewriting s[pos].
   */
  lemma Punct(s: string, pos: nat, kind: TokenKind, c: char)
    requires pos < |s| && s[pos] == c
    requires kind in {Equal, Colon, Semicolon, LParen, RParen, Comma, Dot} && PatternOf(kind) == Literal([c])
    ensures Scan(s, pos) == [Token(kind, [c])] + Scan(s, pos + 1)
  {
    ScanPunctuation(s, pos, kind);
  }

  /** A single digit before a non-digit is a number token. */
  lemma Digit(s: string, pos: nat)
    requires pos + 1 < |s| && IsDigit(s[pos]) && !IsDigit(s[pos + 1])
    ensures Scan(s, pos) == [Token(Number, [s[pos]])] + Scan(s, pos + 1)
  {
    assert Run(s, pos + 1, Digits) == 0;
    ScanNumber(s, pos, 1);
    assert s[pos..pos + 1] == [s[pos]];
  }

  /** A double-quoted single character is a string token. */
  lemma QuotedChar(s: string, pos: nat)
    requires pos + 2 < |s| && s[pos] == '"' && s[pos + 1] != '"' && s[pos + 2] == '"'
    ensures Scan(s, pos) == [Token(String, [s[pos], s[pos + 1], s[pos + 2]])] + Scan(s, pos + 3)
  {
    assert Run(s, pos + 2, NonQuote) == 0;
    assert Run(s, pos + 1, NonQuote) == 1;
    ScanString(s, pos, 3);
    assert s[pos..pos + 3] == [s[pos], s[pos + 1], s[pos + 2]];
  }

  // ---------------------------------------------------------------------------
  // let x: number = 5;
  // ---------------------------------------------------------------------------

  /** s is the text `let x: number = 5;`, spelled out character by character. */
  predicate IsDeclarationText(s: string) {
    |s| == 18 &&
    s[0] == 'l' && s[1] == 'e' && s[2] == 't' && s[3] == ' ' && s[4] == 'x' && s[5] == ':' && s[6] == ' ' && s[7] == 'n' &&
    s[8] == 'u' && s[9] == 'm' && s[10] == 'b' && s[11] == 'e' && s[12] == 'r' && s[13] == ' ' && s[14] == '=' && s[15] == ' ' &&
    s[16] == '5' && s[17] == ';'
  }

  /** The predicate holds of exactly one text. */
  lemma DeclarationTextIs(s: string)
    ensures IsDeclarationText(s) <==> s == "let x: number = 5;"
  {
  }

  const DeclarationTokens: seq<Token> :=
    [Token(Let, "let"), Token(Identifier, "x"), Token(Colon, ":"), Token(Identifier, "number"),
     Token(Equal, "="), Token(Number, "5"), Token(Semicolon, ";")]

  lemma DeclarationFrom16(s: string)
    requires IsDeclarationText(s)
    ensures Scan(s, 16) == DeclarationTokens[5..]
  {
    Punct(s, 17, Semicolon, ';');
    Digit(s, 16);
  }

  lemma DeclarationFrom14(s: string)
    requires IsDeclarationText(s)
    ensures Scan(s, 14) == DeclarationTokens[4..]
  {
    DeclarationFrom16(s);
    ScanBlank(s, 15);
    Punct(s, 14, Equal, '=');
  }

  lemma DeclarationFrom7(s: string)
    requires IsDeclarationText(s)
    ensures Scan(s, 7) == DeclarationTokens[3..]
  {
    DeclarationFrom14(s);
    ScanBlank(s, 13);
    ScanWord(s, 7, "number");
  }

  lemma DeclarationFrom5(s: string)
    requires IsDeclarationText(s)
    ensures Scan(s, 5) == DeclarationTokens[2..]
  {
    DeclarationFrom7(s);
    ScanBlank(s, 6);
    Punct(s, 5, Colon, ':');
  }

  lemma DeclarationFrom4(s: string)
    requires IsDeclarationText(s)
    ensures Scan(s, 4) == DeclarationTokens[1..]
  {
    DeclarationFrom5(s);
    ScanWord(s, 4, "x");
  }

  /** The tokens of `let x: number = 5;`. */
  lemma DeclarationScan(s: string)
    requires IsDeclarationText(s)
    ensures Tokens(s) == DeclarationTokens
  {
    DeclarationFrom4(s);
    ScanBlank(s, 3);
    ScanWord(s, 0, "let");
  }

  /** The declaration node: keyword, name, annotation and value. */
  lemma DeclarationParses()
    ensures Ast(DeclarationTokens) == [VariableDeclaration("let", "x", Some("number"), Some("5"))]
  {
    FullDeclaration(DeclarationTokens, 0);
    ParseFromStep(DeclarationTokens, 0);
  }

  /** The code for the declaration: the annotation is gone. */
  lemma DeclarationOutput()
    ensures JsCode(Ast(DeclarationTokens)) == "let x = 5;\n"
  {
    DeclarationParses();
    DeclarationLine();
  }

  lemma DeclarationLine()
    ensures JsCode([VariableDeclaration("let", "x", Some("number"), Some("5"))]) == "let x = 5;\n"
  {
  }

  /** A declaration loses its type annotation. */
  lemma DeclarationCompiles(s: string)
    requires IsDeclarationText(s)
    ensures Compile(s) == "let x = 5;\n"
  {
    DeclarationScan(s);
    DeclarationOutput();
  }

  // ---------------------------------------------------------------------------
  // const msg: string = "hi";
  // ---------------------------------------------------------------------------

  /** s is the text `const msg: string = "hi";`, spelled out character by character. */
  predicate IsConstDeclarationText(s: string) {
    |s| == 25 &&
    s[0] == 'c' && s[1] == 'o' && s[2] == 'n' && s[3] == 's' && s[4] == 't' && s[5] == ' ' && s[6] == 'm' && s[7] == 's' &&
    s[8] == 'g' && s[9] == ':' && s[10] == ' ' && s[11] == 's' && s[12] == 't' && s[13] == 'r' && s[14] == 'i' && s[15] == 'n' &&
    s[16] == 'g' && s[17] == ' ' && s[18] == '=' && s[19] == ' ' && s[20] == '"' && s[21] == 'h' && s[22] == 'i' && s[23] == '"' &&
    s[24] == ';'
  }

  /** The predicate holds of exactly one text. */
  lemma ConstDeclarationTextIs(s: string)
    ensures IsConstDeclarationText(s) <==> s == "const msg: string = \"hi\";"
  {
  }

  const ConstDeclarationTokens: seq<Token> :=
    [Token(Const, "const"), Token(Identifier, "msg"), Token(Colon, ":"), Token(Identifier, "string"),
     Token(Equal, "="), Token(String, "\"hi\""), Token(Semicolon, ";")]

  lemma ConstDeclarationFrom20(s: string)
    requires IsConstDeclarationText(s)
    ensures Scan(s, 20) == ConstDeclarationTokens[5..]
  {
    Punct(s, 24, Semicolon, ';');
    assert Run(s, 23, NonQuote) == 0;
    assert Run(s, 22, NonQuote) == 1;
    assert Run(s, 21, NonQuote) == 2;
    ScanString(s, 20, 4);
    assert s[20..24] == "\"hi\"";
  }

  lemma ConstDeclarationFrom18(s: string)
    requires IsConstDeclarationText(s)
    ensures Scan(s, 18) == ConstDeclarationTokens[4..]
  {
    ConstDeclarationFrom20(s);
    ScanBlank(s, 19);
    Punct(s, 18, Equal, '=');
  }

  lemma ConstDeclarationFrom11(s: string)
    requires IsConstDeclarationText(s)
    ensures Scan(s, 11) == ConstDeclarationTokens[3..]
  {
    ConstDeclarationFrom18(s);
    ScanBlank(s, 17);
    ScanWord(s, 11, "string");
  }

  lemma ConstDeclarationFrom9(s: string)
    requires IsConstDeclarationText(s)
    ensures Scan(s, 9) == ConstDeclarationTokens[2..]
  {
    ConstDeclarationFrom11(s);
    ScanBlank(s, 10);
    Punct(s, 9, Colon, ':');
  }

  lemma ConstDeclarationFrom6(s: string)
    requires IsConstDeclarationText(s)
    ensures Scan(s, 6) == ConstDeclarationTokens[1..]
  {
    ConstDeclarationFrom9(s);
    ScanWord(s, 6, "msg");
  }

  /** The tokens of `const msg: string = "hi";`. */
  lemma ConstDeclarationScan(s: string)
    requires IsConstDeclarationText(s)
    ensures Tokens(s) == ConstDeclarationTokens
  {
    ConstDeclarationFrom6(s);
    ScanBlank(s, 5);
    ScanWord(s, 0, "const");
  }

  lemma ConstDeclarationParses()
    ensures Ast(ConstDeclarationTokens) == [VariableDeclaration("const", "msg", Some("string"), Some("\"hi\""))]
  {
    FullDeclaration(ConstDeclarationTokens, 0);
    ParseFromStep(ConstDeclarationTokens, 0);
  }

  lemma ConstDeclarationOutput()
    ensures JsCode(Ast(ConstDeclarationTokens)) == "const msg = \"hi\";\n"
  {
    ConstDeclarationParses();
    ConstDeclarationLine();
  }

  lemma ConstDeclarationLine()
    ensures JsCode([VariableDeclaration("const", "msg", Some("string"), Some("\"hi\""))]) == "const msg = \"hi\";\n"
  {
  }

  /** A const declaration with a string value keeps the quotes of the value. */
  lemma ConstDeclarationCompiles(s: string)
    requires IsConstDeclarationText(s)
    ensures Compile(s) == "const msg = \"hi\";\n"
  {
    ConstDeclarationScan(s);
    ConstDeclarationOutput();
  }

  // ---------------------------------------------------------------------------
  // console.log("a", b, 3);   and   console.log("x")
  // ---------------------------------------------------------------------------

  /** s starts with `console.log("`. */
  predicate CallPrefix(s: string) {
    |s| > 12 && s[0] == 'c' && s[1] == 'o' && s[2] == 'n' && s[3] == 's' && s[4] == 'o' && s[5] == 'l' && s[6] == 'e' &&
    s[7] == '.' && s[8] == 'l' && s[9] == 'o' && s[10] == 'g' && s[11] == '(' && s[12] == '"'
  }

  lemma CallHeadFrom8(s: string, rest: seq<Token>)
    requires CallPrefix(s) && Scan(s, 12) == rest
    ensures Scan(s, 8) == [Token(Identifier, "log"), Token(LParen, "(")] + rest
  {
    Punct(s, 11, LParen, '(');
    var afterLog := [Token(LParen, "(")] + rest;
    assert Scan(s, 11) == afterLog;
    LogWord(s);
    assert Scan(s, 8) == [Token(Identifier, "log")] + afterLog;
  }

  lemma LogWord(s: string)
    requires CallPrefix(s)
    ensures Scan(s, 8) == [Token(Identifier, "log")] + Scan(s, 11)
  {
    assert s[8..11] == "log";
    ScanWord(s, 8, "log");
  }

  lemma CallHeadFrom7(s: string, rest: seq<Token>)
    requires CallPrefix(s) && Scan(s, 12) == rest
    ensures Scan(s, 7) == [Token(Dot, "."), Token(Identifier, "log"), Token(LParen, "(")] + rest
  {
    CallHeadFrom8(s, rest);
    Punct(s, 7, Dot, '.');
  }

  /** The tokens of a text starting with `console.log("`, given the tokens from the quote on. */
  lemma CallHead(s: string, rest: seq<Token>)
    requires CallPrefix(s) && Scan(s, 12) == rest
    ensures Tokens(s) == [Token(Identifier, "console"), Token(Dot, "."), Token(Identifier, "log"), Token(LParen, "(")] + rest
  {
    CallHeadFrom7(s, rest);
    assert s[0..7] == "console";
    ScanWord(s, 0, "console");
  }

  /** s is the text `console.log("a", b, 3);`, spelled out character by character. */
  predicate IsCallText(s: string) {
    |s| == 23 && CallPrefix(s) &&
    s[13] == 'a' && s[14] == '"' && s[15] == ',' && s[16] == ' ' && s[17] == 'b' && s[18] == ',' && s[19] == ' ' && s[20] == '3' &&
    s[21] == ')' && s[22] == ';'
  }

  /** The predicate holds of exactly one text. */
  lemma CallTextIs(s: string)
    ensures IsCallText(s) <==> s == "console.log(\"a\", b, 3);"
  {
  }

  const CallTokens: seq<Token> :=
    [Token(Identifier, "console"), Token(Dot, "."), Token(Identifier, "log"), Token(LParen, "("),
     Token(String, "\"a\""), Token(Comma, ","), Token(Identifier, "b"), Token(Comma, ","),
     Token(Number, "3"), Token(RParen, ")"), Token(Semicolon, ";")]

  lemma CallFrom20(s: string)
    requires IsCallText(s)
    ensures Scan(s, 20) == CallTokens[8..]
  {
    Punct(s, 22, Semicolon, ';');
    Punct(s, 21, RParen, ')');
    Digit(s, 20);
  }

  lemma CallFrom18(s: string)
    requires IsCallText(s)
    ensures Scan(s, 18) == CallTokens[7..]
  {
    CallFrom20(s);
    ScanBlank(s, 19);
    Punct(s, 18, Comma, ',');
  }

  lemma CallFrom17(s: string)
    requires IsCallText(s)
    ensures Scan(s, 17) == CallTokens[6..]
  {
    CallFrom18(s);
    ScanWord(s, 17, "b");
  }

  lemma CallFrom15(s: string)
    requires IsCallText(s)
    ensures Scan(s, 15) == CallTokens[5..]
  {
    CallFrom17(s);
    ScanBlank(s, 16);
    Punct(s, 15, Comma, ',');
  }

  lemma CallFrom12(s: string)
    requires IsCallText(s)
    ensures Scan(s, 12) == CallTokens[4..]
  {
    CallFrom15(s);
    QuotedChar(s, 12);
  }

  /** The tokens of `console.log("a", b, 3);`. */
  lemma CallScan(s: string)
    requires IsCallText(s)
    ensures Tokens(s) == CallTokens
  {
    CallFrom12(s);
    CallHead(s, CallTokens[4..]);
  }

  /** The call node: the arguments are the string, identifier and number tokens, in order. */
  lemma CallParses()
    ensures Ast(CallTokens) == [ConsoleLog(["\"a\"", "b", "3"])]
  {
    CallArguments();
    ConsoleLogEmitted(CallTokens, 0);
    ParseFromStep(CallTokens, 0);
  }

  /** The closing parenthesis of the call and the values before it. */
  lemma CallArguments()
    ensures FirstRParen(CallTokens, 4) == 9
    ensures ValueTexts(CallTokens, 4, 9) == ["\"a\"", "b", "3"]
  {
    var t := CallTokens;
    assert FirstRParen(t, 9) == 9;
    assert FirstRParen(t, 8) == 9;
    assert FirstRParen(t, 7) == 9;
    assert FirstRParen(t, 6) == 9;
    assert FirstRParen(t, 5) == 9;
    assert ValueTexts(t, 4, 5) == ["\"a\""];
    assert ValueTexts(t, 4, 6) == ["\"a\""];
    assert ValueTexts(t, 4, 7) == ["\"a\"", "b"];
    assert ValueTexts(t, 4, 8) == ["\"a\"", "b"];
  }

  lemma CallOutput()
    ensures JsCode(Ast(CallTokens)) == "console.log(\"a\", b, 3);\n"
  {
    CallParses();
    CallLine();
  }

  lemma CallLine()
    ensures JsCode([ConsoleLog(["\"a\"", "b", "3"])]) == "console.log(\"a\", b, 3);\n"
  {
    var parts := ["\"a\"", "b", "3"];
    assert parts[..1] == ["\"a\""] && parts[..2] == ["\"a\"", "b"] && parts[..2][..1] == parts[..1];
    assert Join(", ", parts) == "\"a\", b, 3";
  }

  /** The arguments are printed as they were written, separated by a comma and a blank. */
  lemma CallCompiles(s: string)
    requires IsCallText(s)
    ensures Compile(s) == "console.log(\"a\", b, 3);\n"
  {
    CallScan(s);
    CallOutput();
  }

  /** s is the text `console.log("x")`, spelled out character by character. */
  predicate IsUnterminatedCallText(s: string) {
    |s| == 16 && CallPrefix(s) &&
    s[13] == 'x' && s[14] == '"' && s[15] == ')'
  }

  /** The predicate holds of exactly one text. */
  lemma UnterminatedCallTextIs(s: string)
    ensures IsUnterminatedCallText(s) <==> s == "console.log(\"x\")"
  {
  }

  const UnterminatedCallTokens: seq<Token> :=
    [Token(Identifier, "console"), Token(Dot, "."), Token(Identifier, "log"), Token(LParen, "("),
     Token(String, "\"x\""), Token(RParen, ")")]

  lemma UnterminatedCallFrom12(s: string)
    requires IsUnterminatedCallText(s)
    ensures Scan(s, 12) == UnterminatedCallTokens[4..]
  {
    Punct(s, 15, RParen, ')');
    QuotedChar(s, 12);
  }

  /** The tokens of `console.log("x")`. */
  lemma UnterminatedCallScan(s: string)
    requires IsUnterminatedCallText(s)
    ensures Tokens(s) == UnterminatedCallTokens
  {
    UnterminatedCallFrom12(s);
    CallHead(s, UnterminatedCallTokens[4..]);
  }

  /** Without the semicolon the call is dropped, and the parser steps past the end. */
  lemma UnterminatedCallParses()
    ensures Ast(UnterminatedCallTokens) == []
  {
    assert FirstRParen(UnterminatedCallTokens, 4) == 5;
    ConsoleLogRecovery(UnterminatedCallTokens, 0);
    ParseFromStep(UnterminatedCallTokens, 0);
  }

  /** A call without its closing semicolon produces nothing. */
  lemma UnterminatedCallCompiles(s: string)
    requires IsUnterminatedCallText(s)
    ensures Compile(s) == ""
  {
    UnterminatedCallScan(s);
    UnterminatedCallParses();
  }

  // ---------------------------------------------------------------------------
  // The four examples on the literal texts
  // ---------------------------------------------------------------------------

  lemma DeclarationExample()
    ensures Compile("let x: number = 5;") == "let x = 5;\n"
  {
    DeclarationTextIs("let x: number = 5;");
    DeclarationCompiles("let x: number = 5;");
  }

  lemma ConstDeclarationExample()
    ensures Compile("const msg: string = \"hi\";") == "const msg = \"hi\";\n"
  {
    ConstDeclarationTextIs("const msg: string = \"hi\";");
    ConstDeclarationCompiles("const msg: string = \"hi\";");
  }

  lemma CallExample()
    ensures Compile("console.log(\"a\", b, 3);") == "console.log(\"a\", b, 3);\n"
  {
    CallTextIs("console.log(\"a\", b, 3);");
    CallCompiles("console.log(\"a\", b, 3);");
  }

  lemma UnterminatedCallExample()
    ensures Compile("console.log(\"x\")") == ""
  {
    UnterminatedCallTextIs("console.log(\"x\")");
    UnterminatedCallCompiles("console.log(\"x\")");
  }
}
