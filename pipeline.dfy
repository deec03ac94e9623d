/**
 * The three passes of compiler.py chained: tokenize, parse, transpile.
 */
module Pipeline {
  import opened Wrappers
  import opened Lexer
  import opened Parser
  import opened Generator

  /** The JavaScript the compiler produces for a TypeScript source text. */
  function Compile(source: string): string {
    JsCode(Ast(Tokens(source)))
  }

  /** The three passes run one after the other. */
  method CompileSource(source: string) returns (js: string)
    ensures js == Compile(source)
  {
    var tokens := Tokenize(source);
    var ast := Parse(tokens);
    js := Transpile(ast);
  }

  /**
   * Across the passes: every declaration the compiler emits is a let or a
   * const declaration, and its name is never one of the two keywords, since
   * the scanner turns those texts into keyword tokens.
   */
  lemma DeclarationKinds(source: string)
    ensures forall n :: n in Ast(Tokens(source)) && n.VariableDeclaration? ==>
      (n.kind == "let" || n.kind == "const") && n.name != "let" && n.name != "const"
  {
    var toks := Tokens(source);
    AstNodesFromTokens(toks);
    TokensWellFormed(source);
    forall n | n in Ast(toks) && n.VariableDeclaration?
      ensures (n.kind == "let" || n.kind == "const") && n.name != "let" && n.name != "const"
    {
      var j: nat :| DeclaresAt(toks, j, n) || LogsAt(toks, j, n);
      assert DeclaresAt(toks, j, n);
      assert toks[j] in toks && toks[j + 1] in toks;
    }
  }
}
