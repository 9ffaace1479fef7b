/**
 * The fragment of the TypeScript syntax tree the code generator builds with
 * `factory`, and the meaning of the parts of it that run: literals,
 * identifiers, `===`, template expressions, `return` and `if`.
 */
module TypeScriptAst {
  import opened Wrappers
  import opened JsString

  /** The keyword type nodes the generator uses (`SyntaxKind.*Keyword`). */
  datatype Keyword = StringKeyword | NumberKeyword | ObjectKeyword

  /**
   * A parameter declaration: a name and an optional keyword type; the
   * generator never gives a modifier, `?` or initialiser.
   */
  datatype Parameter = Parameter(name: string, typeNode: Option<Keyword>)

  /** The name of an object literal property. */
  datatype PropertyName = Identifier(id: string) | StringLiteralName(text: string)

  /** The literal text after a template span's expression. */
  datatype TemplateLiteral = TemplateMiddle(text: string) | TemplateTail(text: string)

  /** `${name}` followed by literal text. */
  datatype TemplateSpan = TemplateSpan(name: string, literal: TemplateLiteral)

  datatype Expr =
    | StringLiteral(text: string)
    | NumericLiteral(n: int)
    | TrueLiteral
    | IdentifierRef(id: string)
    | StrictEquals(left: Expr, right: Expr)
    | ArrayLiteral(elements: seq<Expr>)
    | ObjectLiteral(properties: seq<(PropertyName, Expr)>)
    | TemplateExpression(head: string, spans: seq<TemplateSpan>)
    | ArrowFunction(parameters: seq<Parameter>, body: Body)

  /** An arrow function's body: one expression, or a block. */
  datatype Body = Concise(expr: Expr) | BlockBody(block: Block)

  datatype Block = Block(statements: seq<Stmt>)

  datatype Stmt =
    | Return(expr: Expr)
    | If(condition: Expr, thenBlock: Block, elseBlock: Option<Block>)

  // What the generated code computes.

  /** A runtime value an argument can be bound to. */
  datatype Value = Num(n: int) | Bool(b: bool) | Str(s: string)

  /** JavaScript's conversion of a value to a string, as a template performs it. */
  function Show(v: Value): string {
    match v
    case Str(s) => s
    case Bool(b) => if b then "true" else "false"
    case Num(n) => if n < 0 then "-" + DecimalDigits(-n) else DecimalDigits(n)
  }

  /** How a template shows the identifiers bound by `env`. */
  function Shown(env: string -> Value): string -> string {
    x => Show(env(x))
  }

  /** The text of a template's spans with each name replaced by its value under `show`. */
  function SpansText(spans: seq<TemplateSpan>, show: string -> string): string {
    if spans == [] then ""
    else show(spans[0].name) + spans[0].literal.text + SpansText(spans[1..], show)
  }

  /** Every name a template's spans read is one of `scope`. */
  predicate SpansBound(spans: seq<TemplateSpan>, scope: set<string>) {
    forall k :: 0 <= k < |spans| ==> spans[k].name in scope
  }

  /**
   * A template the printer can write back as source text: at least one span,
   * every span but the last closed by a middle literal, the last by a tail.
   */
  predicate PrintableSpans(spans: seq<TemplateSpan>) {
    |spans| > 0
    && (forall k :: 0 <= k < |spans| - 1 ==> spans[k].literal.TemplateMiddle?)
    && spans[|spans| - 1].literal.TemplateTail?
  }

  /** The names a function's parameters bind. */
  function Scope(parameters: seq<Parameter>): set<string> {
    set k | 0 <= k < |parameters| :: parameters[k].name
  }

  /**
   * The value of an expression under `env`, the values bound to identifiers,
   * when only the names in `scope` are declared; `None` when it throws (an
   * identifier outside `scope` is a `ReferenceError`) and for the array,
   * object and function expressions, which the generated function bodies
   * never evaluate.
   */
  function Eval(e: Expr, scope: set<string>, env: string -> Value): Option<Value> {
    match e
    case StringLiteral(t) => Some(Str(t))
    case NumericLiteral(n) => Some(Num(n))
    case TrueLiteral => Some(Bool(true))
    case IdentifierRef(x) => if x in scope then Some(env(x)) else None
    case StrictEquals(a, b) =>
      (match (Eval(a, scope, env), Eval(b, scope, env))
       case (Some(x), Some(y)) => Some(Bool(x == y))
       case _ => None)
    case TemplateExpression(head, spans) =>
      if SpansBound(spans, scope) then Some(Str(head + SpansText(spans, Shown(env)))) else None
    case _ => None
  }

  /** How running statements ends: falling off the end, returning a value, or throwing or reaching an unevaluable expression. */
  datatype Completion = Normal | Returned(v: Value) | Stuck

  /** Running statements in order until one returns. */
  function Exec(stmts: seq<Stmt>, scope: set<string>, env: string -> Value): Completion
    decreases stmts
  {
    if stmts == [] then Normal
    else
      match ExecStmt(stmts[0], scope, env)
      case Normal => Exec(stmts[1..], scope, env)
      case c => c
  }

  /** Running one statement. */
  function ExecStmt(s: Stmt, scope: set<string>, env: string -> Value): Completion
    decreases s
  {
    match s
    case Return(e) =>
      (match Eval(e, scope, env)
       case Some(v) => Returned(v)
       case None => Stuck)
    case If(c, thenBlock, elseBlock) =>
      (match Eval(c, scope, env)
       case Some(Bool(b)) =>
         if b then Exec(thenBlock.statements, scope, env)
         else if elseBlock.Some? then Exec(elseBlock.value.statements, scope, env)
         else Normal
       case _ => Stuck)
  }

  /**
   * Calling an arrow function with `env` binding its parameters: the value it
   * returns, or `None` when it throws or falls off the end. Only the
   * parameters are declared inside the body.
   */
  function Call(parameters: seq<Parameter>, body: Body, env: string -> Value): Option<Value> {
    match body
    case Concise(e) => Eval(e, Scope(parameters), env)
    case BlockBody(block) =>
      (match Exec(block.statements, Scope(parameters), env)
       case Returned(v) => Some(v)
       case _ => None)
  }
}
