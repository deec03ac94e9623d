# python-tsc compiler core in Dafny

A model of the three passes of `compiler.py`, a toy TypeScript-to-JavaScript
transpiler. The passes are:

- **tokenize** scans the text with an ordered table of thirteen token rules.
- **parse** walks the token list with a cursor. It recognises `let`/`const`
  declarations and `console.log(...);` calls and steps over everything else.
- **transpile** prints one JavaScript line per node.

Each pass is an imperative loop in the source, and each is modelled the same way:

- a pure specification function: `Lexer.Tokens`, `Parser.Ast`, `Generator.JsCode`;
- a Dafny `method` with the loop of the source, proved to compute that function:
  `Lexer.Tokenize`, `Parser.Parse`, `Generator.Transpile`;
- lemmas that prove what the source promises about the function.

Files:

- `lexer.dfy`: the token table, the scanner and its lemmas.
  - The three regular-expression shapes of the table are hand-coded. They are a
    one-character class followed by a greedy run, a fixed word, and a quoted run.
  - Each shape has an independent definition of its language (`InPattern`).
    Each shape is proved to match the longest prefix in that language.
  - The rules are tried in table order and the first one that matches wins.
    This is the behaviour of the alternation of named groups.
- `parser.dfy`: one loop step (`Step`) as functions for the declaration and call
  branches. `Parse` mirrors the nested while loops.
- `generator.dfy`: rendering of the nodes.
- `pipeline.dfy`: the three passes chained, and a property across them.
- `examples.dfy`: the four end-to-end examples.
  - Each example text is pinned down character by character by a predicate.
  - A lemma proves the predicate holds of exactly the literal text.
- `wrappers.dfy`, `sequences.dfy`: `Option` and concatenation associativity.

A token, a `(kind, value)` tuple in the source, becomes the datatype `Token`.
Its kind strings `"NUMBER"` ... `"DOT"`, including the `"LET"`/`"CONST"` that
`value.upper()` produces, become the constructors of `TokenKind`. A node, a
dictionary in the source, becomes the datatype `Node`, with one constructor per
value of its `"type"` key. `None` becomes `Option.None`.

## Model

| member | source | states |
|---|---|---|
| Lexer.IsDigit | compiler.py:7 | the class `\d`, restricted to the ASCII digits `0`-`9` |
| Lexer.IsIdentStart | compiler.py:8 | the class `[a-zA-Z_]` |
| Lexer.IsIdentChar | compiler.py:8 | the class `[a-zA-Z0-9_]` |
| Lexer.IsSpace | compiler.py:18 | the class `\s` on ASCII: tab to carriage return, the separators 0x1C-0x1F, and space |
| Lexer.InPattern | compiler.py:7-19 | the texts each pattern matches as a whole: a head character and tail run, the fixed word, or a quote, non-quotes and a quote |
| Lexer.Rule | compiler.py:6-20 | the rules in the order of the token table, NUMBER first and DOT last |
| Lexer.PatternOf | compiler.py:7-19 | the pattern of each rule: digit run, identifier, fixed words, quoted string, whitespace run |
| Lexer.Run | compiler.py:7-18 | the greedy run of class characters at pos (the tails of `\d+`, the identifier pattern and `\s+`, and the `[^"]*` of a string), which stays within the text |
| Lexer.Word | compiler.py:9-16 | the match length of a fixed word: its length or 0, within the text |
| Lexer.MatchPattern | compiler.py:7-19 | the match length of one pattern at pos, which stays within the text |
| Lexer.MatchRule | compiler.py:6-20 | the match length of one rule of the table at pos, within the text |
| Lexer.FirstMatchFrom | compiler.py:21-23 | the alternation tried from rule j on: a non-empty match within the text, or none |
| Lexer.FirstMatch | compiler.py:21-23 | the alternation tried at pos: a non-empty match within the text, or none |
| Lexer.Lengths | compiler.py:21 | the table of all thirteen rules' match lengths at pos |
| Lexer.FirstRule | compiler.py:21 | the first rule with a non-empty length in the table, with that length |
| Lexer.Classify | compiler.py:28-29 | an identifier spelled `let` or `const` becomes LET or CONST; every other kind is kept |
| Lexer.Scan | compiler.py:22-31 | the tokens of the text from pos: a match emits its reclassified text unless it is whitespace, an unmatched position is skipped |
| Lexer.Tokens | compiler.py:4-31 | the token list of the whole text |
| Lexer.Starts | compiler.py:23-25 | the start position of each token the scan emits |
| Lexer.Tokenize | compiler.py:4-31 | the finditer loop returns exactly `Tokens(s)`: whitespace matches dropped, `let`/`const` identifiers reclassified, unmatched characters skipped |
| Lexer.ScanMatch | compiler.py:23-30 | a winning match of a non-whitespace rule emits one token, its text the matched slice, its kind reclassified; a whitespace match emits nothing; the scan resumes after the match |
| Lexer.ScanSkip | compiler.py:23 | where no rule matches, the scan resumes at the next character |
| Lexer.FirstMatchIsFirst | compiler.py:6-23 | the scanner reports no match iff no rule matches; otherwise it reports the first matching rule in table order, with that rule's match length |
| Lexer.FirstRuleIsFirst | compiler.py:21 | the first rule with a non-empty match in the table of lengths: none iff every length is 0, otherwise the earliest such rule with every earlier length 0 |
| Lexer.FirstMatchFromIsFirstRule | compiler.py:21-23 | trying the rules lazily in order gives the same winner as choosing over the table of all their match lengths |
| Lexer.RuleWins | compiler.py:21-23 | a rule that matches while no earlier rule does is the one reported, with its length |
| Lexer.MatchIsLongestPrefix | compiler.py:7-19 | every pattern's match is a prefix in the pattern's language, and no longer prefix is in it (greedy matching) |
| Lexer.RepeatIsLongest | compiler.py:7-18 | `\d+`, the identifier pattern and `\s+` match the longest prefix made of a head character and a run of tail characters |
| Lexer.RunIsMaximal | compiler.py:7-18 | a run covers only characters of its class and stops at a character outside it |
| Lexer.RunIsLongest | compiler.py:7-18 | the run is in the class and no longer slice is |
| Lexer.WordMatches | compiler.py:9-16 | a fixed-word pattern matches at pos iff the text continues with the word there |
| Lexer.LiteralIsLongest | compiler.py:9-16 | a fixed-word pattern's match is the word and nothing longer is |
| Lexer.QuotedIsLongest | compiler.py:17 | the string pattern matches a quote, non-quotes and the next quote, and nothing longer |
| Lexer.ClosedQuoteMatches | compiler.py:17 | a quote followed by non-quotes and a closing quote is in the string pattern's language |
| Lexer.ClosedQuoteIsLongest | compiler.py:17 | no text longer than the closed quoted run is in the string pattern's language |
| Lexer.OpenQuoteNoMatch | compiler.py:17 | a quote with no closing quote after it starts no string |
| Lexer.MatchNeedsStart | compiler.py:7-19 | a pattern matches only where its first character can start it |
| Lexer.DigitStartsNumber | compiler.py:7 | at a digit the NUMBER rule wins with the whole digit run |
| Lexer.LetterStartsIdentifier | compiler.py:8-11 | at a letter or `_` the IDENTIFIER rule wins with the whole identifier run, ahead of LET and CONST |
| Lexer.KeywordRulesNeverWin | compiler.py:8-11 | the LET and CONST rules never win a match, because IDENTIFIER precedes them |
| Lexer.PunctuationIsToken | compiler.py:9-19 | at `=`, `:`, `;`, `(`, `)`, `,` or `.` that punctuation rule wins with length 1 |
| Lexer.QuoteStartsString | compiler.py:17 | at a quote with a closing quote later, STRING wins with the text up to that closing quote |
| Lexer.SpaceStartsWhitespace | compiler.py:18 | at a whitespace character WHITESPACE wins with the whole whitespace run |
| Lexer.ScanPunctuation | compiler.py:9-30 | a punctuation character becomes a one-character token of its kind, and the scan goes on at the next character |
| Lexer.ScanBlank | compiler.py:18-26 | a single whitespace character emits nothing |
| Lexer.ScanIdentifier | compiler.py:8-30 | an identifier run becomes one token, reclassified as a keyword when spelled `let` or `const` |
| Lexer.RunExactly | compiler.py:7-18 | a run of exactly k class characters followed by a non-class character has length k |
| Lexer.ScanWord | compiler.py:8-30 | a word of identifier characters not followed by one is one token of that text |
| Lexer.ScanNumber | compiler.py:7-30 | a digit run becomes one NUMBER token |
| Lexer.ScanString | compiler.py:17-30 | a closed quoted run becomes one STRING token, quotes included |
| Lexer.ScanWellFormed | compiler.py:23-30 | every token emitted from pos on is well formed: not whitespace, text in its rule's language, no identifier spelled `let` or `const` |
| Lexer.MatchedTokenWellFormed | compiler.py:24-30 | the token appended for a non-whitespace match is well formed |
| Lexer.MatchedLength | compiler.py:24-25 | the reported length is the winning rule's match length |
| Lexer.ClassifiedWellFormed | compiler.py:28-29 | a text that matches its rule's pattern as a whole gives a well-formed token once reclassified |
| Lexer.KeywordTexts | compiler.py:10-29 | a well-formed token has text `let` iff its kind is LET, and text `const` iff its kind is CONST |
| Lexer.TokensWellFormed | compiler.py:8-30 | no WHITESPACE token is emitted. Every text fits its kind: digits, an identifier, a quoted run, or the single punctuation character. The text is `let`/`const` iff the kind is LET/CONST |
| Lexer.StartsStep | compiler.py:23-30 | the start positions advance exactly as the scan does |
| Lexer.LocatedFrom | compiler.py:23 | tokens that start at or after a position also start at or after any earlier position |
| Lexer.LocatedCons | compiler.py:23-30 | a token found in the text before the next tokens extends the in-order placement |
| Lexer.ScanOccursInOrder | compiler.py:23-30 | every token from pos on is the text of s at its start position, and each ends before the next one starts |
| Lexer.TokensOccurInOrder | compiler.py:6-25 | the token texts occur in the input left to right, without overlap |
| Lexer.UnmatchedCharSkipped | compiler.py:23 | a character no rule can start is skipped without error |
| Lexer.UnterminatedStringSkipped | compiler.py:17-23 | a quote with no closing quote is skipped, and scanning goes on after it |
| Parser.IsValue | compiler.py:53-71 | the kinds STRING, NUMBER and IDENTIFIER accepted as a value and as an argument |
| Parser.At | compiler.py:41-80 | the guard `i < len(tokens)` and the token at i has the given kind |
| Parser.IsConsoleLogAt | compiler.py:65 | the three-token guard: IDENTIFIER `console`, DOT, IDENTIFIER `log`, all inside the list |
| Parser.NodeList | compiler.py:58-85 | the step's node appended when there is one, nothing otherwise |
| Parser.ParseFrom | compiler.py:37-93 | the nodes the loop appends from cursor i, the cursor possibly one past the end |
| Parser.Ast | compiler.py:33-94 | the nodes of the whole token list |
| Parser.NodeCursors | compiler.py:37-93 | the cursors at which the loop appends a node, in loop order |
| Parser.NodesAt | compiler.py:37-93 | node k of a list sits at cursor k: it is the node built by the step there, no cursor lies before the start, and each step ends at or before the next cursor |
| Parser.NodesAtFrom | compiler.py:37-93 | nodes placed from a later cursor on are placed from any earlier one (the loop skips a statement that yields no node) |
| Parser.NodesAtCons | compiler.py:37-93 | a node built by the step at cursor c, ending where the later nodes start, goes in front of them and keeps every node at its cursor and in order |
| Parser.ParseFromInOrder | compiler.py:37-93 | the k-th node from cursor i on is built by the step at the k-th node cursor, no cursor lies before i, and each such step ends at or before the next node cursor |
| Parser.AstInOrder | compiler.py:33-94 | the tree has one node per node cursor; the k-th node is built by the step at the k-th cursor; the cursors strictly increase, each step ending at or before the next node's cursor, so the tree keeps the statements in source order |
| Parser.ValueTexts | compiler.py:70-77 | the texts of the value tokens of a range, in order, at most one per token |
| Parser.DeclarationRecovery | compiler.py:38-64 | a keyword without a name emits nothing and the cursor moves exactly one token on. Otherwise the cursor passes the name, a `:` with or without a type, an `=` with or without a value, and an optional `;`. The annotation and value are the tokens right after the `:` and after the `=` |
| Parser.UntypedDeclaration | compiler.py:38-64 | `kw name = value` gives the node with no annotation and that value, the cursor past the optional `;` |
| Parser.LoneColonDeclaration | compiler.py:44-57 | `kw name : = value`: the lone colon is consumed and the value is kept |
| Parser.Parse | compiler.py:33-94 | the outer while loop returns exactly `Ast(tokens)` |
| Parser.ParseDeclaration | compiler.py:38-64 | the let/const branch computes `Declaration`: its node and the new cursor |
| Parser.ParseConsoleLog | compiler.py:65-91 | the console.log branch computes `Log`: its node (if any) and the new cursor |
| Parser.ParseArguments | compiler.py:69-77 | the argument loop stops at the first `)` or at the end, and collects the texts of the value tokens before it, in order |
| Parser.Step | compiler.py:37-93 | every pass of the loop strictly increases the cursor, by at most one past the end, so parse terminates |
| Parser.Annotation | compiler.py:45-49 | the annotation clause consumes at most two tokens |
| Parser.Initializer | compiler.py:51-55 | the value clause consumes at most two tokens |
| Parser.Declaration | compiler.py:38-64 | the declaration branch consumes at least the keyword and stays within the list |
| Parser.Log | compiler.py:65-91 | the call branch moves the cursor at least four tokens on, past `console . log` and the token after it, and at most one past the end |
| Parser.ParseFromStep | compiler.py:37-93 | the nodes from a cursor are the node of one step followed by the nodes from the step's new cursor |
| Parser.FirstRParen | compiler.py:70 | the stop index of the argument loop lies between its start and the end of the list |
| Parser.FirstRParenIsFirst | compiler.py:70 | that index holds a `)` or is the end, and no `)` comes before it |
| Parser.ValueTextsAreValues | compiler.py:70-77 | the arguments are exactly the texts of the IDENTIFIER, STRING and NUMBER tokens in the range |
| Parser.StepNodeBounds | compiler.py:38-91 | a step that emits a node consumes at least two tokens and stays within the list |
| Parser.ParseFromSize | compiler.py:37-93 | from cursor i, twice the node count is at most the tokens left |
| Parser.AstSize | compiler.py:33-94 | twice the number of nodes is at most the number of tokens |
| Parser.ParseFromSound | compiler.py:37-93 | every node from a cursor on is the node of a step at some later cursor |
| Parser.DeclarationEmitted | compiler.py:38-64 | a step emits a declaration iff it is at LET/CONST followed by an IDENTIFIER; its kind is the keyword's text and its name the identifier's text; a missing `;` does not stop it |
| Parser.DeclarationClauses | compiler.py:44-57 | the annotation is present iff `:` IDENTIFIER follows the name, and is that identifier's text. A present value is the text of the value token right after an `=` |
| Parser.FullDeclaration | compiler.py:38-64 | a complete `let x : T = v` gives the node with all four fields, and the cursor moves past the optional `;` |
| Parser.ConsoleLogEmitted | compiler.py:65-85 | a step emits a call iff it is at `console . log (` with a `)` later directly followed by `;`. The arguments are the value texts up to the first `)`, and the cursor lands after the `;` |
| Parser.ConsoleLogRecovery | compiler.py:86-91 | without `(`, the step skips one more token. Without `)`, it steps one past the end. Without `;` after the `)`, it emits nothing and skips one extra token |
| Parser.OtherTokenSkipped | compiler.py:92-93 | any other token is stepped over |
| Parser.StepNodeShape | compiler.py:38-91 | a step's node is a declaration or a call built from the tokens at its cursor |
| Parser.AstNodesFromTokens | compiler.py:58-85 | every declaration node has a LET/CONST token's text as kind and the next identifier's text as name; every call node holds the value texts between `console . log (` and the first `)` |
| Parser.AstDeclarationValues | compiler.py:50-64 | every present value of a declaration in the tree is the text of a STRING, NUMBER or IDENTIFIER token right after an `=` |
| Generator.Join | compiler.py:104 | the arguments joined with the separator between consecutive ones |
| Generator.ValueText | compiler.py:102 | a value prints as its text, an absent one as `None` |
| Generator.Line | compiler.py:99-105 | the line printed for one node |
| Generator.JsCode | compiler.py:98-106 | the lines of the nodes, in order |
| Generator.Transpile | compiler.py:96-106 | the for loop returns exactly `JsCode(ast)` |
| Generator.JsCodeConcat | compiler.py:98-106 | the empty list gives `""`, and the code of `a + b` is the code of `a` followed by the code of `b` |
| Generator.DeclarationRendering | compiler.py:100-102 | a declaration prints as `kind name = value;` and a line break, with no annotation and an absent value printed as `None` |
| Generator.CallRendering | compiler.py:103-105 | a call prints as `console.log(` + the arguments joined by `", "` + `);` and a line break |
| Generator.StripAnnotations | compiler.py:101-102 | removing the annotations keeps the number of nodes |
| Generator.AnnotationsIgnored | compiler.py:101-102 | the output does not depend on any type annotation |
| Generator.CountConcat | compiler.py:102-105 | line breaks in a concatenation add up |
| Generator.CountNone | compiler.py:102-105 | a text without a line break counts none |
| Generator.JoinCount | compiler.py:104 | joining texts without line breaks gives none |
| Generator.LineHasOneBreak | compiler.py:102-105 | a node whose texts have no line break prints as exactly one line |
| Generator.OneLinePerNode | compiler.py:99-105 | when no text has a line break, the program has exactly one line per node |
| Generator.LineEndsStatement | compiler.py:102-105 | every printed line ends with `;` and a line break |
| Pipeline.Compile | compiler.py:121-125 | the output of transpile after parse after tokenize |
| Pipeline.CompileSource | compiler.py:121-125 | tokenize, parse and transpile run in sequence compute `Compile(source)` |
| Pipeline.DeclarationKinds | compiler.py:28-42 | every emitted declaration is a `let` or `const` one, and its name is never `let` or `const` |
| Examples.DeclarationTextIs | compiler.py:4-106 | the declaration predicate holds of exactly the text `let x: number = 5;` |
| Examples.DeclarationScan | compiler.py:4-31 | that text tokenizes as LET `let`, IDENTIFIER `x`, COLON, IDENTIFIER `number`, EQUAL, NUMBER `5`, SEMICOLON |
| Examples.DeclarationParses | compiler.py:38-64 | those tokens parse to one declaration `let x : number = 5` |
| Examples.DeclarationLine | compiler.py:100-102 | that node prints as `let x = 5;` and a line break |
| Examples.DeclarationOutput | compiler.py:33-106 | those tokens compile to `let x = 5;` and a line break |
| Examples.DeclarationCompiles | compiler.py:4-106 | `let x: number = 5;` compiles to `let x = 5;` and a line break |
| Examples.ConstDeclarationTextIs | compiler.py:4-106 | the const predicate holds of exactly the text `const msg: string = "hi";` |
| Examples.ConstDeclarationScan | compiler.py:4-31 | that text tokenizes as CONST, IDENTIFIER `msg`, COLON, IDENTIFIER `string`, EQUAL, STRING `"hi"`, SEMICOLON |
| Examples.ConstDeclarationParses | compiler.py:38-64 | those tokens parse to one const declaration holding the quoted value |
| Examples.ConstDeclarationLine | compiler.py:100-102 | that node prints as `const msg = "hi";` and a line break |
| Examples.ConstDeclarationOutput | compiler.py:33-106 | those tokens compile to `const msg = "hi";` and a line break |
| Examples.ConstDeclarationCompiles | compiler.py:4-106 | `const msg: string = "hi";` compiles to `const msg = "hi";` and a line break |
| Examples.CallTextIs | compiler.py:4-106 | the call predicate holds of exactly the text `console.log("a", b, 3);` |
| Examples.CallHead | compiler.py:4-31 | a text starting `console.log("` tokenizes as `console . log (` followed by the tokens from the quote on |
| Examples.CallScan | compiler.py:4-31 | the call text tokenizes to its eleven tokens; the blanks are dropped |
| Examples.CallArguments | compiler.py:69-78 | the argument loop stops at the `)` at index 9 and collects `"a"`, `b`, `3` |
| Examples.CallParses | compiler.py:65-85 | those tokens parse to one call with arguments `"a"`, `b`, `3` |
| Examples.CallLine | compiler.py:103-105 | that node prints as `console.log("a", b, 3);` and a line break |
| Examples.CallOutput | compiler.py:33-106 | those tokens compile to that line |
| Examples.CallCompiles | compiler.py:4-106 | `console.log("a", b, 3);` compiles to `console.log("a", b, 3);` and a line break |
| Examples.UnterminatedCallTextIs | compiler.py:4-106 | the predicate holds of exactly the text `console.log("x")` |
| Examples.UnterminatedCallScan | compiler.py:4-31 | that text tokenizes to `console . log ( "x" )` |
| Examples.UnterminatedCallParses | compiler.py:86-87 | without the `;` those tokens parse to no node |
| Examples.UnterminatedCallCompiles | compiler.py:4-106 | `console.log("x")` compiles to the empty program |
| Examples.DeclarationExample | compiler.py:4-106 | `let x: number = 5;` compiles to `let x = 5;` and a line break |
| Examples.ConstDeclarationExample | compiler.py:4-106 | `const msg: string = "hi";` compiles to `const msg = "hi";` and a line break |
| Examples.CallExample | compiler.py:4-106 | `console.log("a", b, 3);` compiles to itself and a line break |
| Examples.UnterminatedCallExample | compiler.py:4-106 | `console.log("x")` compiles to the empty program |

## Left out

- `compile_ts_file` (compiler.py:108-136) is not part of this model. It reads the
  input file, prints traces, derives the `.js` name, writes the output and catches
  exceptions: all I/O. `Pipeline.CompileSource` models only its three calls (lines 121-125).
- The command-line entry point (compiler.py:138-143) is not modelled: it is only
  argument handling.
- Python's general regular-expression engine is not modelled. The scanner is written
  out by hand for the thirteen fixed patterns of the table, with their greedy and
  first-alternative semantics.
- Unicode character classes are not modelled. `\d` is the ASCII digits only. `\s` is
  the ASCII whitespace set: tab to carriage return, 0x1C-0x1F and space. Python's
  `\d` and `\s` also match other Unicode digits and spaces.
- The token tuples and node dictionaries are modelled as datatypes, and the kind
  strings as the enumeration `TokenKind`. The node's `"type"` key is the datatype
  constructor.
- Examples.DeclarationCompiles, Examples.ConstDeclarationCompiles, Examples.CallCompiles
  and Examples.UnterminatedCallCompiles are stated for any text that satisfies the
  example's character predicate. The `*TextIs` lemmas show each predicate holds of
  exactly one literal. The `*Example` lemmas combine the two facts and state the
  results on the literal texts themselves.
- The generator's Python f-string formatting of an absent value is modelled as the
  text `None`. No other value type reaches the generator.
