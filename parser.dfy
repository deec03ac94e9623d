/**
 * The parser of compiler.py (function parse): a cursor walks the token list
 * and recognises two statement forms, variable declarations
 * `let|const name [: type] [= value] [;]` and calls
 * `console.log ( args ) ;`. Anything else moves the cursor one token on.
 *
 * Step, ParseFrom and Ast state what the loop computes; the method Parse is
 * the loop itself, proved to compute Ast.
 */
module Parser {
  import opened Wrappers
  import opened Lexer
  import opened Sequences

  /** The two node types of the syntax tree. An absent type or value is None. */
  datatype Node =
    | VariableDeclaration(kind: string, name: string, typeAnnotation: Option<string>, value: Option<string>)
    | ConsoleLog(arguments: seq<string>)

  /** The token kinds a value may have: string, number or identifier. */
  predicate IsValue(kind: TokenKind) {
    kind == String || kind == Number || kind == Identifier
  }

  /** The cursor j is on a token of kind k. */
  predicate At(toks: seq<Token>, j: nat, k: TokenKind) {
    j < |toks| && toks[j].kind == k
  }

  /** Tokens i, i+1, i+2 spell console . log */
  predicate IsConsoleLogAt(toks: seq<Token>, i: nat) {
    i + 2 < |toks| &&
    toks[i].kind == Identifier && toks[i].text == "console" &&
    toks[i + 1].kind == Dot &&
    toks[i + 2].kind == Identifier && toks[i + 2].text == "log"
  }

  /** The index of the first right parenthesis at or after i, or |toks| when there is none. */
  function FirstRParen(toks: seq<Token>, i: nat): (r: nat)
    requires i <= |toks|
    decreases |toks| - i
    ensures i <= r <= |toks|
  {
    if i == |toks| then i
    else if toks[i].kind == RParen then i
    else FirstRParen(toks, i + 1)
  }

  /** FirstRParen finds a right parenthesis, or the end, with none before it. */
  lemma {:induction false} FirstRParenIsFirst(toks: seq<Token>, i: nat)
    requires i <= |toks|
    decreases |toks| - i
    ensures FirstRParen(toks, i) < |toks| ==> toks[FirstRParen(toks, i)].kind == RParen
    ensures forall k :: i <= k < FirstRParen(toks, i) ==> toks[k].kind != RParen
  {
    if i < |toks| && toks[i].kind != RParen {
      FirstRParenIsFirst(toks, i + 1);
    }
  }

  /** The texts of the value tokens among toks[a..b], in order; every other token is dropped. */
  function ValueTexts(toks: seq<Token>, a: nat, b: nat): (r: seq<string>)
    requires a <= b <= |toks|
    decreases b - a
    ensures |r| <= b - a
  {
    if a == b then []
    else ValueTexts(toks, a, b - 1) + (if IsValue(toks[b - 1].kind) then [toks[b - 1].text] else [])
  }

  /** What one step of the loop produces: the node it appends, if any, and the new cursor. */
  datatype StepResult = StepResult(node: Option<Node>, next: nat)

  /** An optional clause of a declaration (`: type` or `= value`): its text and the cursor after it. */
  datatype Clause = Clause(text: Option<string>, next: nat)

  /** A colon, then optionally an identifier naming the type. */
  function Annotation(toks: seq<Token>, i: nat): (c: Clause)
    ensures i <= c.next <= i + 2
  {
    if At(toks, i, Colon) then
      if At(toks, i + 1, Identifier) then Clause(Some(toks[i + 1].text), i + 2) else Clause(None, i + 1)
    else Clause(None, i)
  }

  /** An equals sign, then optionally a string, number or identifier. */
  function Initializer(toks: seq<Token>, i: nat): (c: Clause)
    ensures i <= c.next <= i + 2
  {
    if At(toks, i, Equal) then
      if i + 1 < |toks| && IsValue(toks[i + 1].kind) then Clause(Some(toks[i + 1].text), i + 2)
      else Clause(None, i + 1)
    else Clause(None, i)
  }

  /**
   * The declaration branch, entered on a let or const token at i. Without an
   * identifier after the keyword nothing is appended; otherwise the node is
   * appended whether or not the closing semicolon is there.
   */
  function Declaration(toks: seq<Token>, i: nat): (r: StepResult)
    requires i < |toks|
    ensures i < r.next <= |toks|
  {
    if !At(toks, i + 1, Identifier) then StepResult(None, i + 1)
    else
      var ann := Annotation(toks, i + 2);
      var init := Initializer(toks, ann.next);
      var next := if At(toks, init.next, Semicolon) then init.next + 1 else init.next;
      StepResult(Some(VariableDeclaration(toks[i].text, toks[i + 1].text, ann.text, init.text)), next)
  }

  /**
   * The console.log branch. The arguments are the value tokens between the
   * parentheses. A node is appended only when `)` and `;` follow; a missing
   * `(` moves the cursor one past it, a missing `)` one past the end, and a
   * missing `;` one past the token after the `)`.
   */
  function Log(toks: seq<Token>, i: nat): (r: StepResult)
    requires IsConsoleLogAt(toks, i)
    ensures i + 4 <= r.next <= |toks| + 1
  {
    if !At(toks, i + 3, LParen) then StepResult(None, i + 4)
    else
      var close := FirstRParen(toks, i + 4);
      if close == |toks| then StepResult(None, close + 1)
      else if At(toks, close + 1, Semicolon) then StepResult(Some(ConsoleLog(ValueTexts(toks, i + 4, close))), close + 2)
      else StepResult(None, close + 2)
  }

  /** One iteration of the outer loop at cursor i. */
  function Step(toks: seq<Token>, i: nat): (r: StepResult)
    requires i < |toks|
    ensures i < r.next <= |toks| + 1
  {
    if toks[i].kind == Let || toks[i].kind == Const then Declaration(toks, i)
    else if IsConsoleLogAt(toks, i) then Log(toks, i)
    else StepResult(None, i + 1)
  }

  function NodeList(node: Option<Node>): seq<Node> {
    match node
    case None => []
    case Some(n) => [n]
  }

  /** The nodes the loop appends from cursor i on. The cursor may end one past the end. */
  function ParseFrom(toks: seq<Token>, i: nat): seq<Node>
    requires i <= |toks| + 1
    decreases |toks| + 1 - i
  {
    if i >= |toks| then []
    else
      var r := Step(toks, i);
      NodeList(r.node) + ParseFrom(toks, r.next)
  }

  /** The syntax tree of a token list. */
  function Ast(toks: seq<Token>): seq<Node> {
    ParseFrom(toks, 0)
  }

  lemma ParseFromStep(toks: seq<Token>, i: nat)
    requires i < |toks|
    ensures ParseFrom(toks, i) == NodeList(Step(toks, i).node) + ParseFrom(toks, Step(toks, i).next)
  {
  }

  /**
   * The declaration branch of the parse loop, entered on a let or const token:
   * returns the node it appends, if any, and the new cursor.
   */
  method ParseDeclaration(tokens: seq<Token>, i0: nat) returns (node: Option<Node>, i: nat)
    requires i0 < |tokens|
    ensures StepResult(node, i) == Declaration(tokens, i0)
  {
    node := None;
    var varType := tokens[i0].text;
    i := i0 + 1;
    if i < |tokens| && tokens[i].kind == Identifier {
      var varName := tokens[i].text;
      i := i + 1;
      var typeAnnotation: Option<string> := None;
      if i < |tokens| && tokens[i].kind == Colon {
        i := i + 1;
        if i < |tokens| && tokens[i].kind == Identifier {
          typeAnnotation := Some(tokens[i].text);
          i := i + 1;
        }
      }
      assert Clause(typeAnnotation, i) == Annotation(tokens, i0 + 2);
      var value: Option<string> := None;
      if i < |tokens| && tokens[i].kind == Equal {
        i := i + 1;
        if i < |tokens| && IsValue(tokens[i].kind) {
          value := Some(tokens[i].text);
          i := i + 1;
        }
      }
      assert Clause(value, i) == Initializer(tokens, Annotation(tokens, i0 + 2).next);
      if i < |tokens| && tokens[i].kind == Semicolon {
        i := i + 1;
      }
      node := Some(VariableDeclaration(varType, varName, typeAnnotation, value));
    }
  }

  /**
   * The argument loop: from just after `(` up to the first `)`, collecting
   * the text of each value token, stepping over a comma that follows a value,
   * and skipping every other token.
   */
  method ParseArguments(tokens: seq<Token>, start: nat) returns (args: seq<string>, i: nat)
    requires start <= |tokens|
    ensures i == FirstRParen(tokens, start)
    ensures args == ValueTexts(tokens, start, i)
  {
    FirstRParenIsFirst(tokens, start);
    args := [];
    i := start;
    while i < |tokens| && tokens[i].kind != RParen
      invariant start <= i <= FirstRParen(tokens, start)
      invariant args == ValueTexts(tokens, start, i)
      decreases |tokens| - i
    {
      if IsValue(tokens[i].kind) {
        args := args + [tokens[i].text];
        i := i + 1;
        if i < |tokens| && tokens[i].kind == Comma {
              i := i + 1;
        }
      } else {
        i := i + 1;
      }
    }
  }

  /** The console.log branch of the parse loop, entered on console . log */
  method ParseConsoleLog(tokens: seq<Token>, i0: nat) returns (node: Option<Node>, i: nat)
    requires IsConsoleLogAt(tokens, i0)
    ensures StepResult(node, i) == Log(tokens, i0)
  {
    node := None;
    i := i0 + 3;
    if i < |tokens| && tokens[i].kind == LParen {
      i := i + 1;
      var args;
      args, i := ParseArguments(tokens, i);
      FirstRParenIsFirst(tokens, i0 + 4);
      if i < |tokens| && tokens[i].kind == RParen {
        i := i + 1;
        if i < |tokens| && tokens[i].kind == Semicolon {
          i := i + 1;
          node := Some(ConsoleLog(args));
        } else {
          i := i + 1;
        }
      } else {
        i := i + 1;
      }
    } else {
      i := i + 1;
    }
  }

  /** The parse loop. */
  method Parse(tokens: seq<Token>) returns (ast: seq<Node>)
    ensures ast == Ast(tokens)
  {
    ast := [];
    var i := 0;
    while i < |tokens|
      invariant i <= |tokens| + 1
      invariant ast + ParseFrom(tokens, i) == Ast(tokens)
      decreases |tokens| + 1 - i
    {
      ParseFromStep(tokens, i);
      var node: Option<Node> := None;
      var next := i + 1;
      if tokens[i].kind == Let || tokens[i].kind == Const {
        node, next := ParseDeclaration(tokens, i);
      } else if IsConsoleLogAt(tokens, i) {
        node, next := ParseConsoleLog(tokens, i);
      }
      Assoc(ast, NodeList(node), ParseFrom(tokens, next));
      ast := ast + NodeList(node);
      i := next;
    }
  }

  // ---------------------------------------------------------------------------
  // Properties of the parser
  // ---------------------------------------------------------------------------

  /** The argument texts are exactly the texts of the value tokens in the range. */
  lemma {:induction false} ValueTextsAreValues(toks: seq<Token>, a: nat, b: nat)
    requires a <= b <= |toks|
    decreases b - a
    ensures forall t :: t in ValueTexts(toks, a, b) ==>
      exists k :: a <= k < b && IsValue(toks[k].kind) && toks[k].text == t
    ensures forall k :: a <= k < b && IsValue(toks[k].kind) ==> toks[k].text in ValueTexts(toks, a, b)
  {
    if a < b {
      ValueTextsAreValues(toks, a, b - 1);
    }
  }

  /** A node consumes at least two tokens and leaves the cursor inside the list. */
  lemma StepNodeBounds(toks: seq<Token>, i: nat)
    requires i < |toks|
    ensures Step(toks, i).node.Some? ==> i + 2 <= Step(toks, i).next <= |toks|
  {
  }

  /** Parsing from cursor i yields at most one node per two remaining tokens. */
  lemma {:induction false} ParseFromSize(toks: seq<Token>, i: nat)
    requires i <= |toks| + 1
    decreases |toks| + 1 - i
    ensures i <= |toks| ==> 2 * |ParseFrom(toks, i)| <= |toks| - i
  {
    if i < |toks| {
      var r := Step(toks, i);
      StepNodeBounds(toks, i);
      ParseFromSize(toks, r.next);
    }
  }

  /** The syntax tree has at most one node per two tokens; in particular |Ast| <= |toks|. */
  lemma AstSize(toks: seq<Token>)
    ensures 2 * |Ast(toks)| <= |toks|
  {
    ParseFromSize(toks, 0);
  }

  /** Every node of ParseFrom(toks, i) is the node of the step at some cursor j >= i. */
  lemma {:induction false} ParseFromSound(toks: seq<Token>, i: nat)
    requires i <= |toks| + 1
    decreases |toks| + 1 - i
    ensures forall n :: n in ParseFrom(toks, i) ==>
      exists j :: i <= j < |toks| && Step(toks, j).node == Some(n)
  {
    if i < |toks| {
      var r := Step(toks, i);
      ParseFromSound(toks, r.next);
      ParseFromStep(toks, i);
    }
  }

  /** A step appends a declaration exactly on let or const followed by an identifier. */
  lemma DeclarationEmitted(toks: seq<Token>, i: nat)
    requires i < |toks|
    ensures (Step(toks, i).node.Some? && Step(toks, i).node.value.VariableDeclaration?) <==>
      (toks[i].kind == Let || toks[i].kind == Const) && At(toks, i + 1, Identifier)
    ensures Step(toks, i).node.Some? && Step(toks, i).node.value.VariableDeclaration? ==>
      Step(toks, i).node.value.kind == toks[i].text && Step(toks, i).node.value.name == toks[i + 1].text
  {
  }

  /**
   * The type annotation is the identifier after a colon right after the name;
   * the value is the string, number or identifier after the equals sign. This
   * is the one-way summary used by AstDeclarationValues; DeclarationRecovery
   * states the clauses exactly.
   */
  lemma DeclarationClauses(toks: seq<Token>, i: nat)
    requires i + 1 < |toks| && (toks[i].kind == Let || toks[i].kind == Const) && toks[i + 1].kind == Identifier
    ensures var n := Step(toks, i).node.value;
      (n.typeAnnotation.Some? <==> At(toks, i + 2, Colon) && At(toks, i + 3, Identifier)) &&
      (n.typeAnnotation.Some? ==> n.typeAnnotation.value == toks[i + 3].text) &&
      (n.value.Some? ==>
        exists j :: i + 2 <= j <= i + 4 && At(toks, j, Equal) && j + 1 < |toks| &&
          IsValue(toks[j + 1].kind) && n.value.value == toks[j + 1].text)
  {
    var ann := Annotation(toks, i + 2);
    var init := Initializer(toks, ann.next);
    if init.text.Some? {
      assert At(toks, ann.next, Equal);
    }
  }

  /**
   * A complete declaration `kw name : type = value ;` is one node with all four
   * fields, and the cursor moves past the semicolon; without the semicolon the
   * same node is appended and the cursor stops after the value.
   */
  lemma FullDeclaration(toks: seq<Token>, i: nat)
    requires i + 5 < |toks| && (toks[i].kind == Let || toks[i].kind == Const)
    requires toks[i + 1].kind == Identifier && toks[i + 2].kind == Colon && toks[i + 3].kind == Identifier
    requires toks[i + 4].kind == Equal && IsValue(toks[i + 5].kind)
    ensures Step(toks, i).node ==
      Some(VariableDeclaration(toks[i].text, toks[i + 1].text, Some(toks[i + 3].text), Some(toks[i + 5].text)))
    ensures Step(toks, i).next == if At(toks, i + 6, Semicolon) then i + 7 else i + 6
  {
  }

  /**
   * The recovery paths of the declaration branch. A keyword without a name
   * after it is dropped and the cursor moves to the very next token, so that
   * token is examined again. Otherwise the cursor passes the name, then a
   * colon whether or not a type follows it, then an `=` whether or not a value
   * follows it, then an optional semicolon; the value is the token right after
   * the `=`, if it is a value token.
   */
  lemma DeclarationRecovery(toks: seq<Token>, i: nat)
    requires i < |toks| && (toks[i].kind == Let || toks[i].kind == Const)
    ensures !At(toks, i + 1, Identifier) ==> Step(toks, i) == StepResult(None, i + 1)
    ensures At(toks, i + 1, Identifier) ==>
      var a := if At(toks, i + 2, Colon) then (if At(toks, i + 3, Identifier) then i + 4 else i + 3) else i + 2;
      var hasValue := At(toks, a, Equal) && a + 1 < |toks| && IsValue(toks[a + 1].kind);
      var v := if hasValue then a + 2 else if At(toks, a, Equal) then a + 1 else a;
      var n := Step(toks, i).node;
      n.Some? && n.value.VariableDeclaration? &&
      n.value.typeAnnotation == (if a == i + 4 then Some(toks[i + 3].text) else None) &&
      n.value.value == (if hasValue then Some(toks[a + 1].text) else None) &&
      Step(toks, i).next == if At(toks, v, Semicolon) then v + 1 else v
  {
  }

  /**
   * A declaration without a type, `kw name = value`, is one node with no
   * annotation, and the cursor moves past the optional semicolon.
   */
  lemma UntypedDeclaration(toks: seq<Token>, i: nat)
    requires i + 3 < |toks| && (toks[i].kind == Let || toks[i].kind == Const)
    requires toks[i + 1].kind == Identifier && toks[i + 2].kind == Equal && IsValue(toks[i + 3].kind)
    ensures Step(toks, i).node ==
      Some(VariableDeclaration(toks[i].text, toks[i + 1].text, None, Some(toks[i + 3].text)))
    ensures Step(toks, i).next == if At(toks, i + 4, Semicolon) then i + 5 else i + 4
  {
  }

  /** A colon with no type after it is still consumed, so `kw name : = value` keeps its value. */
  lemma LoneColonDeclaration(toks: seq<Token>, i: nat)
    requires i + 4 < |toks| && (toks[i].kind == Let || toks[i].kind == Const)
    requires toks[i + 1].kind == Identifier && toks[i + 2].kind == Colon
    requires toks[i + 3].kind == Equal && IsValue(toks[i + 4].kind)
    ensures Step(toks, i).node ==
      Some(VariableDeclaration(toks[i].text, toks[i + 1].text, None, Some(toks[i + 4].text)))
    ensures Step(toks, i).next == if At(toks, i + 5, Semicolon) then i + 6 else i + 5
  {
  }

  /**
   * A step appends a console.log node exactly on `console . log (`, a later `)`
   * and a `;` right after it. Its arguments are the value tokens between the
   * parentheses, and the cursor moves past the semicolon.
   */
  lemma ConsoleLogEmitted(toks: seq<Token>, i: nat)
    requires i < |toks|
    ensures (Step(toks, i).node.Some? && Step(toks, i).node.value.ConsoleLog?) <==>
      IsConsoleLogAt(toks, i) && At(toks, i + 3, LParen) &&
      FirstRParen(toks, i + 4) < |toks| && At(toks, FirstRParen(toks, i + 4) + 1, Semicolon)
    ensures Step(toks, i).node.Some? && Step(toks, i).node.value.ConsoleLog? ==>
      Step(toks, i).node.value.arguments == ValueTexts(toks, i + 4, FirstRParen(toks, i + 4)) &&
      Step(toks, i).next == FirstRParen(toks, i + 4) + 2
  {
  }

  /**
   * The forgiving paths of the console.log branch: no node is appended, and
   * the cursor moves one past the token where the pattern broke off: past the
   * token after `)` when `;` is missing, past the end when `)` is missing,
   * and past the token after `log` when `(` is missing.
   */
  lemma ConsoleLogRecovery(toks: seq<Token>, i: nat)
    requires IsConsoleLogAt(toks, i)
    ensures !At(toks, i + 3, LParen) ==> Step(toks, i) == StepResult(None, i + 4)
    ensures At(toks, i + 3, LParen) && FirstRParen(toks, i + 4) == |toks| ==>
      Step(toks, i) == StepResult(None, |toks| + 1)
    ensures (At(toks, i + 3, LParen) && FirstRParen(toks, i + 4) < |toks| &&
             !At(toks, FirstRParen(toks, i + 4) + 1, Semicolon)) ==>
      Step(toks, i) == StepResult(None, FirstRParen(toks, i + 4) + 2)
  {
  }

  /** Any other token is stepped over without a node. */
  lemma OtherTokenSkipped(toks: seq<Token>, i: nat)
    requires i < |toks| && toks[i].kind != Let && toks[i].kind != Const && !IsConsoleLogAt(toks, i)
    ensures Step(toks, i) == StepResult(None, i + 1)
  {
  }

  /** n is the declaration built from the let or const token at j and the identifier after it. */
  predicate DeclaresAt(toks: seq<Token>, j: nat, n: Node) {
    j + 1 < |toks| && (toks[j].kind == Let || toks[j].kind == Const) && toks[j + 1].kind == Identifier &&
    n.VariableDeclaration? && n.kind == toks[j].text && n.name == toks[j + 1].text
  }

  /** n is the console.log call at j, its arguments the value tokens between `(` and the first `)`. */
  predicate LogsAt(toks: seq<Token>, j: nat, n: Node) {
    IsConsoleLogAt(toks, j) && At(toks, j + 3, LParen) && FirstRParen(toks, j + 4) < |toks| &&
    n.ConsoleLog? && n.arguments == ValueTexts(toks, j + 4, FirstRParen(toks, j + 4))
  }

  /** The node of a step, if any, is a declaration or a console.log call built from the tokens at the cursor. */
  lemma StepNodeShape(toks: seq<Token>, j: nat)
    requires j < |toks| && Step(toks, j).node.Some?
    ensures DeclaresAt(toks, j, Step(toks, j).node.value) || LogsAt(toks, j, Step(toks, j).node.value)
  {
    DeclarationEmitted(toks, j);
    ConsoleLogEmitted(toks, j);
  }

  /**
   * Where each node of the tree comes from: a declaration from a let or const
   * token and the identifier after it, a console.log call from the tokens
   * `console . log (` and the value tokens up to the first `)`.
   */
  lemma AstNodesFromTokens(toks: seq<Token>)
    ensures forall n :: n in Ast(toks) ==> exists j: nat :: DeclaresAt(toks, j, n) || LogsAt(toks, j, n)
  {
    ParseFromSound(toks, 0);
    forall n | n in Ast(toks) ensures exists j: nat :: DeclaresAt(toks, j, n) || LogsAt(toks, j, n) {
      var j :| 0 <= j < |toks| && Step(toks, j).node == Some(n);
      StepNodeShape(toks, j);
    }
  }

  /**
   * Every present value of a declaration in the tree is the text of a string,
   * number or identifier token that directly follows an equals sign.
   */
  lemma AstDeclarationValues(toks: seq<Token>)
    ensures forall n :: n in Ast(toks) && n.VariableDeclaration? && n.value.Some? ==>
      exists k :: 0 < k < |toks| && toks[k - 1].kind == Equal && IsValue(toks[k].kind) && toks[k].text == n.value.value
  {
    ParseFromSound(toks, 0);
    forall n | n in Ast(toks) && n.VariableDeclaration? && n.value.Some?
      ensures exists k :: 0 < k < |toks| && toks[k - 1].kind == Equal && IsValue(toks[k].kind) && toks[k].text == n.value.value
    {
      var j :| 0 <= j < |toks| && Step(toks, j).node == Some(n);
      DeclarationEmitted(toks, j);
      DeclarationClauses(toks, j);
      var e :| j + 2 <= e <= j + 4 && At(toks, e, Equal) && e + 1 < |toks| &&
        IsValue(toks[e + 1].kind) && n.value.value == toks[e + 1].text;
      assert toks[(e + 1) - 1].kind == Equal;
    }
  }

  /** The cursors from i on at which the loop appends a node, following ParseFrom. */
  function NodeCursors(toks: seq<Token>, i: nat): seq<nat>
    requires i <= |toks| + 1
    decreases |toks| + 1 - i
  {
    if i >= |toks| then []
    else
      var r := Step(toks, i);
      (if r.node.Some? then [i] else []) + NodeCursors(toks, r.next)
  }

  /**
   * ns[k] is the node of the step at cursor cs[k], no cursor lies before i, and
   * each such step ends at or before the next cursor.
   */
  predicate NodesAt(toks: seq<Token>, cs: seq<nat>, ns: seq<Node>, i: nat) {
    |cs| == |ns| &&
    (forall k :: 0 <= k < |cs| ==> i <= cs[k] < |toks| && Step(toks, cs[k]).node == Some(ns[k])) &&
    (forall k :: 0 <= k < |cs| - 1 ==> cs[k] < |toks| && Step(toks, cs[k]).next <= cs[k + 1])
  }

  /** Nodes placed from next on are placed from any earlier cursor. */
  lemma NodesAtFrom(toks: seq<Token>, cs: seq<nat>, ns: seq<Node>, i: nat, next: nat)
    requires NodesAt(toks, cs, ns, next) && i <= next
    ensures NodesAt(toks, cs, ns, i)
  {
  }

  /** A node built by the step at c, which ends at next, goes in front of the nodes placed from next on. */
  lemma NodesAtCons(toks: seq<Token>, c: nat, n: Node, cs: seq<nat>, ns: seq<Node>, i: nat)
    requires i <= c < |toks| && Step(toks, c).node == Some(n)
    requires NodesAt(toks, cs, ns, Step(toks, c).next)
    ensures NodesAt(toks, [c] + cs, [n] + ns, i)
  {
    var cs2 := [c] + cs;
    var ns2 := [n] + ns;
    forall k | 0 <= k < |cs2|
      ensures i <= cs2[k] < |toks| && Step(toks, cs2[k]).node == Some(ns2[k])
    {
      if k > 0 {
        assert cs2[k] == cs[k - 1] && ns2[k] == ns[k - 1];
      }
    }
    forall k | 0 <= k < |cs2| - 1
      ensures cs2[k] < |toks| && Step(toks, cs2[k]).next <= cs2[k + 1]
    {
      if k > 0 {
        assert cs2[k] == cs[k - 1] && cs2[k + 1] == cs[k];
      }
    }
  }

  /** The nodes from cursor i on are placed, in order, at the node cursors from i on. */
  lemma {:induction false} ParseFromInOrder(toks: seq<Token>, i: nat)
    requires i <= |toks| + 1
    decreases |toks| + 1 - i
    ensures NodesAt(toks, NodeCursors(toks, i), ParseFrom(toks, i), i)
  {
    if i < |toks| {
      var r := Step(toks, i);
      ParseFromInOrder(toks, r.next);
      var cs := NodeCursors(toks, r.next);
      var ns := ParseFrom(toks, r.next);
      if r.node.Some? {
        assert NodeCursors(toks, i) == [i] + cs;
        assert ParseFrom(toks, i) == [r.node.value] + ns;
        NodesAtCons(toks, i, r.node.value, cs, ns, i);
      } else {
        assert NodeCursors(toks, i) == cs;
        assert ParseFrom(toks, i) == ns;
        NodesAtFrom(toks, cs, ns, i, r.next);
      }
    }
  }

  /**
   * The tree keeps the source order of the statements: its k-th node is built
   * by the step at the k-th node cursor, and the cursors increase, each step
   * ending before the next node's step begins.
   */
  lemma AstInOrder(toks: seq<Token>)
    ensures |NodeCursors(toks, 0)| == |Ast(toks)|
    ensures forall k :: 0 <= k < |Ast(toks)| ==>
      NodeCursors(toks, 0)[k] < |toks| && Step(toks, NodeCursors(toks, 0)[k]).node == Some(Ast(toks)[k])
    ensures forall k :: 0 <= k < |Ast(toks)| - 1 ==>
      NodeCursors(toks, 0)[k] < Step(toks, NodeCursors(toks, 0)[k]).next <= NodeCursors(toks, 0)[k + 1]
  {
    ParseFromInOrder(toks, 0);
    var cs := NodeCursors(toks, 0);
    forall k | 0 <= k < |Ast(toks)| - 1
      ensures cs[k] < Step(toks, cs[k]).next
    {
    }
  }
}
