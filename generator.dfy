/**
 * The code generator of compiler.py (function transpile): one line of
 * JavaScript per node, appended in order. Declarations lose their type
 * annotation; an absent value is rendered as the text None.
 */
module Generator {
  import opened Wrappers
  import opened Parser
  import opened Sequences

  /** The parts separated by sep (the join of a list of strings). */
  function Join(sep: string, parts: seq<string>): string {
    if |parts| == 0 then ""
    else if |parts| == 1 then parts[0]
    else Join(sep, parts[..|parts| - 1]) + sep + parts[|parts| - 1]
  }

  /** How a value is formatted: its text, or None when there is none. */
  function ValueText(v: Option<string>): string {
    match v
    case None => "None"
    case Some(t) => t
  }

  /** The line of JavaScript for one node. */
  function Line(n: Node): string {
    match n
    case VariableDeclaration(kind, name, _, value) => kind + " " + name + " = " + ValueText(value) + ";\n"
    case ConsoleLog(args) => "console.log(" + Join(", ", args) + ");\n"
  }

  /** The JavaScript for a node list: the lines of its nodes, in order. */
  function JsCode(ast: seq<Node>): string {
    if ast == [] then "" else JsCode(ast[..|ast| - 1]) + Line(ast[|ast| - 1])
  }

  /** The transpile loop: one formatted line appended per node. */
  method Transpile(ast: seq<Node>) returns (js: string)
    ensures js == JsCode(ast)
  {
    js := "";
    for k := 0 to |ast|
      invariant js == JsCode(ast[..k])
    {
      var node := ast[k];
      var line: string;
      if node.VariableDeclaration? {
        line := node.kind + " " + node.name + " = " + ValueText(node.value) + ";\n";
      } else {
        var args := Join(", ", node.arguments);
        line := "console.log(" + args + ");\n";
      }
      assert ast[..k + 1][..k] == ast[..k];
      js := js + line;
    }
    assert ast[..|ast|] == ast;
  }

  /** A declaration is printed without its annotation, and an absent value as the text None. */
  lemma DeclarationRendering(kind: string, name: string, annotation: Option<string>, value: Option<string>)
    ensures JsCode([VariableDeclaration(kind, name, annotation, value)]) ==
      kind + " " + name + " = " + (if value.Some? then value.value else "None") + ";\n"
  {
    assert [VariableDeclaration(kind, name, annotation, value)][..0] == [];
  }

  /** A call is printed with its arguments separated by a comma and a blank. */
  lemma CallRendering(args: seq<string>)
    ensures JsCode([ConsoleLog(args)]) == "console.log(" + Join(", ", args) + ");\n"
  {
    assert [ConsoleLog(args)][..0] == [];
  }

  // ---------------------------------------------------------------------------
  // Properties of the generator
  // ---------------------------------------------------------------------------

  /** The empty tree gives the empty program, and the output of a concatenation is the concatenation of the outputs. */
  lemma {:induction false} JsCodeConcat(a: seq<Node>, b: seq<Node>)
    decreases |b|
    ensures JsCode([]) == ""
    ensures JsCode(a + b) == JsCode(a) + JsCode(b)
  {
    if b == [] {
      assert a + b == a;
    } else {
      var b' := b[..|b| - 1];
      assert (a + b)[..|a + b| - 1] == a + b';
      assert (a + b)[|a + b| - 1] == b[|b| - 1];
      JsCodeConcat(a, b');
      Assoc(JsCode(a), JsCode(b'), Line(b[|b| - 1]));
    }
  }

  /** The tree with every type annotation removed. */
  function StripAnnotations(ast: seq<Node>): (r: seq<Node>)
    ensures |r| == |ast|
  {
    if ast == [] then []
    else
      var n := ast[|ast| - 1];
      var n' := if n.VariableDeclaration? then n.(typeAnnotation := None) else n;
      StripAnnotations(ast[..|ast| - 1]) + [n']
  }

  /** The generated code does not depend on the type annotations. */
  lemma {:induction false} AnnotationsIgnored(ast: seq<Node>)
    ensures JsCode(StripAnnotations(ast)) == JsCode(ast)
  {
    if ast != [] {
      var s := StripAnnotations(ast);
      AnnotationsIgnored(ast[..|ast| - 1]);
      assert s[..|s| - 1] == StripAnnotations(ast[..|ast| - 1]);
    }
  }

  /** The number of occurrences of c in t. */
  function Count(t: string, c: char): nat {
    if t == [] then 0 else Count(t[..|t| - 1], c) + (if t[|t| - 1] == c then 1 else 0)
  }

  lemma {:induction false} CountConcat(a: string, b: string, c: char)
    decreases |b|
    ensures Count(a + b, c) == Count(a, c) + Count(b, c)
  {
    if b == [] {
      assert a + b == a;
    } else {
      assert (a + b)[..|a + b| - 1] == a + b[..|b| - 1];
      CountConcat(a, b[..|b| - 1], c);
    }
  }

  /** No text of the node contains a line break. */
  predicate SingleLine(n: Node) {
    match n
    case VariableDeclaration(kind, name, _, value) =>
      '\n' !in kind && '\n' !in name && (value.Some? ==> '\n' !in value.value)
    case ConsoleLog(args) => forall k :: 0 <= k < |args| ==> '\n' !in args[k]
  }

  lemma {:induction false} JoinCount(sep: string, parts: seq<string>, c: char)
    requires c !in sep
    requires forall k :: 0 <= k < |parts| ==> c !in parts[k]
    ensures Count(Join(sep, parts), c) == 0
  {
    if |parts| == 1 {
      CountNone(parts[0], c);
    } else if |parts| > 1 {
      JoinCount(sep, parts[..|parts| - 1], c);
      CountConcat(Join(sep, parts[..|parts| - 1]), sep, c);
      CountConcat(Join(sep, parts[..|parts| - 1]) + sep, parts[|parts| - 1], c);
      CountNone(sep, c);
      CountNone(parts[|parts| - 1], c);
    }
  }

  lemma {:induction false} CountNone(t: string, c: char)
    requires c !in t
    ensures Count(t, c) == 0
  {
    if t != [] {
      assert c !in t[..|t| - 1];
      CountNone(t[..|t| - 1], c);
    }
  }

  /** The line of a node without line breaks in its texts holds exactly one line break. */
  lemma LineHasOneBreak(n: Node)
    requires SingleLine(n)
    ensures Count(Line(n), '\n') == 1
  {
    match n
    case VariableDeclaration(kind, name, _, value) =>
      var v := ValueText(value);
      CountNone(kind, '\n');
      CountNone(name, '\n');
      CountNone(v, '\n');
      CountConcat(kind, " ", '\n');
      CountConcat(kind + " ", name, '\n');
      CountConcat(kind + " " + name, " = ", '\n');
      CountConcat(kind + " " + name + " = ", v, '\n');
      CountConcat(kind + " " + name + " = " + v, ";\n", '\n');
    case ConsoleLog(args) =>
      var j := Join(", ", args);
      JoinCount(", ", args, '\n');
      CountNone("console.log(", '\n');
      assert Count(");\n", '\n') == 1 by {
        assert ");\n"[..2] == ");";
        CountNone(");", '\n');
      }
      CountConcat("console.log(", j, '\n');
      CountConcat("console.log(" + j, ");\n", '\n');
  }

  /** When no text contains a line break, the program has exactly one line per node. */
  lemma {:induction false} OneLinePerNode(ast: seq<Node>)
    requires forall k :: 0 <= k < |ast| ==> SingleLine(ast[k])
    ensures Count(JsCode(ast), '\n') == |ast|
  {
    if ast != [] {
      OneLinePerNode(ast[..|ast| - 1]);
      LineHasOneBreak(ast[|ast| - 1]);
      CountConcat(JsCode(ast[..|ast| - 1]), Line(ast[|ast| - 1]), '\n');
    }
  }

  /** Every line ends a statement: with a semicolon and a line break. */
  lemma LineEndsStatement(n: Node)
    ensures |Line(n)| >= 2 && Line(n)[|Line(n)| - 2..] == ";\n"
  {
    var l := Line(n);
    match n
    case VariableDeclaration(kind, name, _, value) =>
      var p := kind + " " + name + " = " + ValueText(value);
      assert l == p + ";\n";
      assert l[|l| - 2..] == ";\n";
    case ConsoleLog(args) =>
      var p := "console.log(" + Join(", ", args) + ")";
      assert l == p + ";\n";
      assert l[|l| - 2..] == ";\n";
  }
}
