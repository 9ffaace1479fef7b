/**
 * `createExpression`: a value description becomes a TypeScript expression.
 * Primitives become literals, arrays and objects literals of their converted
 * elements, and the three function descriptions arrow functions: a
 * placeholder function returns its template, a plural function runs one `if`
 * per counted form before returning the `n` form, and a boolean function
 * returns its `true` form exactly when `bool === true`.
 */
module ExpressionCreation {
  import opened Wrappers
  import opened JsString
  import opened IntermediateStructure
  import opened TypeScriptAst
  import opened ParameterCreation
  import opened TemplateExpressionCreation

  // Property names.

  /** A character of the class `[\w$]`. */
  predicate IsWordChar(c: char) {
    'a' <= c <= 'z' || 'A' <= c <= 'Z' || '0' <= c <= '9' || c == '_' || c == '$'
  }

  /** The property key pattern `^(?!\d)[\w$]+$`: word characters only, at least one, not starting with a digit. */
  predicate IsIdentifierKey(key: string) {
    |key| > 0 && !('0' <= key[0] <= '9') && forall i :: 0 <= i < |key| ==> IsWordChar(key[i])
  }

  /** A key matching the pattern is written as an identifier, any other as a string literal. */
  function PropertyNameOf(key: string): PropertyName {
    if IsIdentifierKey(key) then Identifier(key) else StringLiteralName(key)
  }

  // Primitives and forms.

  /** `createValue`: a number as a numeric literal, anything else as the string literal of its `toString()`. */
  function CreateValue(p: PrimitiveValue): Expr {
    match p
    case PNumber(n) => NumericLiteral(n)
    case PString(s) => StringLiteral(s)
    case PBoolean(b) => StringLiteral(if b then "true" else "false")
  }

  /** The expression of a plural or boolean form: a raw string as a string literal, parts as a template. */
  function FormExpr(f: Form): (r: Result<Expr>)
    ensures r.Err? ==> r.error == NameOfUndefined
  {
    match f
    case Literal(t) => Ok(StringLiteral(t))
    case Parts(parts) => CreateTemplate(parts)
  }

  /** `createPluralValueReturn`: `return` of the form's expression. */
  function PluralValueReturn(f: Form): (r: Result<Stmt>)
    ensures r.Ok? ==> r.value.Return? && FormExpr(f) == Ok(r.value.expr)
    ensures r.Err? ==> FormExpr(f).Err?
  {
    var e :- FormExpr(f);
    Ok(Return(e))
  }

  /** The condition `count === <key>` of a counted form, the key read with `parseInt(key, 10)`. */
  function CountCondition(key: DigitString): Expr {
    StrictEquals(IdentifierRef("count"), NumericLiteral(DecimalValue(key)))
  }

  /** `createPluralIfBlock`: return the form when `count` is the key's number. */
  function PluralIfBlock(key: DigitString, f: Form): (r: Result<Stmt>)
    ensures r.Err? ==> r.error == NameOfUndefined
  {
    var ret :- PluralValueReturn(f);
    Ok(If(CountCondition(key), Block([ret]), None))
  }

  /** The `if` blocks of the counted forms, in order. */
  function PluralIfBlocks(counted: seq<(DigitString, Form)>): (r: Result<seq<Stmt>>)
    ensures r.Ok? ==> |r.value| == |counted|
    ensures r.Err? ==> r.error == NameOfUndefined
  {
    if counted == [] then Ok([])
    else
      var head :- PluralIfBlock(counted[0].0, counted[0].1);
      var tail :- PluralIfBlocks(counted[1..]);
      Ok([head] + tail)
  }

  /** What `createPluralStatements` returns: the counted forms' `if` blocks, then the return of the `n` form. */
  function PluralStatements(nth: Form, counted: seq<(DigitString, Form)>): (r: Result<seq<Stmt>>)
    ensures r.Ok? ==> |r.value| == |counted| + 1
    ensures r.Err? ==> r.error == NameOfUndefined
  {
    var blocks :- PluralIfBlocks(counted);
    var ret :- PluralValueReturn(nth);
    Ok(blocks + [ret])
  }

  /** The condition `bool === true`. */
  function BoolCondition(): Expr {
    StrictEquals(IdentifierRef("bool"), TrueLiteral)
  }

  /** `createBooleanValue`: return the `true` form if `bool === true`, else the `false` form. */
  function BooleanValue(whenTrue: Form, whenFalse: Form): (r: Result<Stmt>)
    ensures r.Err? ==> r.error == NameOfUndefined
  {
    var t :- PluralValueReturn(whenTrue);
    var f :- PluralValueReturn(whenFalse);
    Ok(If(BoolCondition(), Block([t]), Some(Block([f]))))
  }

  // The recursion over the tree.

  /**
   * `createExpression`: the guards tried in the source's order; the final
   * empty string literal is never reached, because exactly one guard holds.
   */
  function CreateExpression(vd: ValueDescription): (r: Result<Expr>)
    ensures r.Err? ==> r.error == NameOfUndefined
    decreases vd, 2
  {
    if IsPrimitiveValueDescription(vd) then Ok(CreateValue(vd.value))
    else if IsArrayValueDescription(vd) then
      var elements :- CreateItems(vd.items);
      Ok(ArrayLiteral(elements))
    else if IsObjectValueDescription(vd) then
      var assignments :- ObjectFold(vd.properties, []);
      Ok(ObjectLiteral(assignments))
    else if IsPlaceholderFunctionValueDescription(vd) then
      var template :- CreateTemplate(vd.stringParts);
      Ok(ArrowFunction(CreateParameters(vd.args), Concise(template)))
    else if IsPluralFunctionValueDescription(vd) then
      var statements :- PluralStatements(vd.nth, vd.counted);
      Ok(ArrowFunction(CreateParameters(vd.args), BlockBody(Block(statements))))
    else if IsBooleanFunctionValueDescription(vd) then
      var statement :- BooleanValue(vd.whenTrue, vd.whenFalse);
      Ok(ArrowFunction(CreateParameters(vd.args), BlockBody(Block([statement]))))
    else Ok(StringLiteral(""))
  }

  /** `createArray`'s `map`: every element converted, in order. */
  function CreateItems(items: seq<ValueDescription>): (r: Result<seq<Expr>>)
    ensures r.Err? ==> r.error == NameOfUndefined
    decreases items, 1
  {
    if items == [] then Ok([])
    else
      var head :- CreateExpression(items[0]);
      var tail :- CreateItems(items[1..]);
      Ok([head] + tail)
  }

  /** The loop of `createObject`: one property assignment pushed per entry. */
  function ObjectFold(props: seq<(string, ValueDescription)>, assignments: seq<(PropertyName, Expr)>): (r: Result<seq<(PropertyName, Expr)>>)
    ensures r.Err? ==> r.error == NameOfUndefined
    decreases props, 0
  {
    if props == [] then Ok(assignments)
    else
      assert props[0].1 < props[0];
      var e :- CreateExpression(props[0].1);
      ObjectFold(props[1..], assignments + [(PropertyNameOf(props[0].0), e)])
  }

  // The imperative parts.

  /** `createObject`. */
  method CreateObject(properties: seq<(string, ValueDescription)>) returns (r: Result<Expr>)
    ensures r == CreateExpression(Object(properties))
  {
    var propertyAssignments: seq<(PropertyName, Expr)> := [];
    for i := 0 to |properties|
      invariant ObjectFold(properties[i..], propertyAssignments) == ObjectFold(properties, [])
    {
      assert properties[i..][1..] == properties[i + 1..];
      var name := PropertyNameOf(properties[i].0);
      var e := CreateExpression(properties[i].1);
      if e.Err? {
        return Err(e.error);
      }
      propertyAssignments := propertyAssignments + [(name, e.value)];
    }
    assert properties[|properties|..] == [];
    return Ok(ObjectLiteral(propertyAssignments));
  }

  /** `createPluralStatements`: the `if` blocks, then the `n` form's return pushed last. */
  method CreatePluralStatements(nth: Form, counted: seq<(DigitString, Form)>) returns (r: Result<seq<Stmt>>)
    ensures r == PluralStatements(nth, counted)
  {
    var statements :- PluralIfBlocks(counted);
    var nthValue :- PluralValueReturn(nth);
    statements := statements + [nthValue];
    return Ok(statements);
  }

  // Which descriptions convert.

  /** A form whose expression can be built: a raw string, or parts without `undefined`. */
  predicate Renderable(f: Form) {
    f.Literal? || Undefined !in f.parts
  }

  /** A form's expression is built exactly when the form has no `undefined` part. */
  lemma FormExprOkIff(f: Form)
    ensures FormExpr(f).Ok? <==> Renderable(f)
  {
    if f.Parts? {
      SpansOkIff(f.parts, 0);
      assert f.parts[0..] == f.parts;
    }
  }

  /** The counted forms' blocks are built exactly when every counted form is renderable. */
  lemma {:induction false} PluralIfBlocksOkIff(counted: seq<(DigitString, Form)>)
    ensures PluralIfBlocks(counted).Ok? <==> forall i :: 0 <= i < |counted| ==> Renderable(counted[i].1)
  {
    if counted != [] {
      FormExprOkIff(counted[0].1);
      PluralIfBlocksOkIff(counted[1..]);
      assert forall i :: 1 <= i < |counted| ==> counted[i] == counted[1..][i - 1];
    }
  }

  /** Array elements convert element by element, in order, and the array throws exactly when an element does. */
  lemma {:induction false} CreateItemsElementwise(items: seq<ValueDescription>)
    ensures CreateItems(items).Ok? <==> forall i :: 0 <= i < |items| ==> CreateExpression(items[i]).Ok?
    ensures CreateItems(items).Ok? ==>
      |CreateItems(items).value| == |items|
      && forall i :: 0 <= i < |items| ==> CreateExpression(items[i]) == Ok(CreateItems(items).value[i])
    decreases |items|
  {
    if items != [] {
      CreateItemsElementwise(items[1..]);
      assert forall i :: 1 <= i < |items| ==> items[i] == items[1..][i - 1];
    }
  }

  /**
   * The loop of `createObject` keeps every entry, in order, after the
   * assignments already pushed: an identifier key as an identifier, any other
   * as a string literal, with the value converted; it throws exactly when a
   * value does.
   */
  lemma {:induction false} ObjectFoldEntrywise(props: seq<(string, ValueDescription)>, assignments: seq<(PropertyName, Expr)>)
    ensures ObjectFold(props, assignments).Ok? <==> forall i :: 0 <= i < |props| ==> CreateExpression(props[i].1).Ok?
    ensures ObjectFold(props, assignments).Ok? ==>
      var r := ObjectFold(props, assignments).value;
      |r| == |assignments| + |props| && r[..|assignments|] == assignments
      && forall i :: 0 <= i < |props| ==>
        r[|assignments| + i].0 == PropertyNameOf(props[i].0)
        && CreateExpression(props[i].1) == Ok(r[|assignments| + i].1)
    decreases |props|
  {
    if props != [] {
      var e := CreateExpression(props[0].1);
      assert forall i :: 1 <= i < |props| ==> props[i] == props[1..][i - 1];
      if e.Ok? {
        var next := assignments + [(PropertyNameOf(props[0].0), e.value)];
        ObjectFoldEntrywise(props[1..], next);
        var f := ObjectFold(props, assignments);
        if f.Ok? {
          assert f.value[..|assignments|] == f.value[..|next|][..|assignments|];
          forall i | 0 <= i < |props|
            ensures f.value[|assignments| + i].0 == PropertyNameOf(props[i].0)
            ensures CreateExpression(props[i].1) == Ok(f.value[|assignments| + i].1)
          {
            if i == 0 {
              assert f.value[|assignments|] == f.value[..|next|][|assignments|];
            } else {
              assert props[i] == props[1..][i - 1];
              assert |assignments| + i == |next| + (i - 1);
            }
          }
        }
      }
    }
  }

  /**
   * `createExpression` by kind, one level deep: primitives become literals
   * (booleans as strings), arrays and objects convert entry by entry, and the
   * three functions take their parameters from the arguments; it throws
   * exactly when some string-parts array it reaches holds `undefined`.
   */
  lemma CreateExpressionShape(vd: ValueDescription)
    ensures vd.Primitive? ==> CreateExpression(vd) == Ok(CreateValue(vd.value))
    ensures vd.Array? ==>
      (CreateExpression(vd).Ok? <==> forall i :: 0 <= i < |vd.items| ==> CreateExpression(vd.items[i]).Ok?)
      && (CreateExpression(vd).Ok? ==>
        var e := CreateExpression(vd).value;
        e.ArrayLiteral? && |e.elements| == |vd.items|
        && forall i :: 0 <= i < |vd.items| ==> CreateExpression(vd.items[i]) == Ok(e.elements[i]))
    ensures vd.Object? ==>
      (CreateExpression(vd).Ok? <==> forall i :: 0 <= i < |vd.properties| ==> CreateExpression(vd.properties[i].1).Ok?)
      && (CreateExpression(vd).Ok? ==>
        var e := CreateExpression(vd).value;
        e.ObjectLiteral? && |e.properties| == |vd.properties|
        && forall i :: 0 <= i < |vd.properties| ==>
          e.properties[i].0 == PropertyNameOf(vd.properties[i].0)
          && CreateExpression(vd.properties[i].1) == Ok(e.properties[i].1))
    ensures vd.PlaceholderFunction? ==> (CreateExpression(vd).Ok? <==> Undefined !in vd.stringParts)
    ensures vd.PluralFunction? ==>
      (CreateExpression(vd).Ok? <==>
        Renderable(vd.nth) && forall i :: 0 <= i < |vd.counted| ==> Renderable(vd.counted[i].1))
    ensures vd.BooleanFunction? ==>
      (CreateExpression(vd).Ok? <==> Renderable(vd.whenTrue) && Renderable(vd.whenFalse))
    ensures (vd.PlaceholderFunction? || vd.PluralFunction? || vd.BooleanFunction?) && CreateExpression(vd).Ok? ==>
      var e := CreateExpression(vd).value;
      e.ArrowFunction? && e.parameters == CreateParameters(vd.args)
  {
    match vd
    case Primitive(_) =>
    case Array(items) => ArrayShape(items);
    case Object(props) => ObjectShape(props);
    case PlaceholderFunction(args, parts) => PlaceholderShape(args, parts);
    case PluralFunction(args, nth, counted) => PluralShape(args, nth, counted);
    case BooleanFunction(args, t, f) => BooleanShape(args, t, f);
  }

  /** The array case of `CreateExpressionShape`. */
  lemma ArrayShape(items: seq<ValueDescription>)
    ensures var r := CreateExpression(Array(items));
      (r.Ok? <==> forall i :: 0 <= i < |items| ==> CreateExpression(items[i]).Ok?)
      && (r.Ok? ==>
        r.value.ArrayLiteral? && |r.value.elements| == |items|
        && forall i :: 0 <= i < |items| ==> CreateExpression(items[i]) == Ok(r.value.elements[i]))
  {
    CreateItemsElementwise(items);
  }

  /** The object case of `CreateExpressionShape`. */
  lemma ObjectShape(props: seq<(string, ValueDescription)>)
    ensures var r := CreateExpression(Object(props));
      (r.Ok? <==> forall i :: 0 <= i < |props| ==> CreateExpression(props[i].1).Ok?)
      && (r.Ok? ==>
        r.value.ObjectLiteral? && |r.value.properties| == |props|
        && forall i :: 0 <= i < |props| ==>
          r.value.properties[i].0 == PropertyNameOf(props[i].0)
          && CreateExpression(props[i].1) == Ok(r.value.properties[i].1))
  {
    ObjectFoldEntrywise(props, []);
    var f := ObjectFold(props, []);
    assert CreateExpression(Object(props)) == if f.Ok? then Ok(ObjectLiteral(f.value)) else Err(f.error);
    if f.Ok? {
      forall i | 0 <= i < |props|
        ensures f.value[i].0 == PropertyNameOf(props[i].0) && CreateExpression(props[i].1) == Ok(f.value[i].1)
      {
        assert f.value[i] == f.value[0 + i];
      }
    }
  }

  /** The placeholder-function case of `CreateExpressionShape`. */
  lemma PlaceholderShape(args: seq<Arg>, parts: seq<Part>)
    ensures var r := CreateExpression(PlaceholderFunction(args, parts));
      (r.Ok? <==> Undefined !in parts)
      && (r.Ok? ==> r.value.ArrowFunction? && r.value.parameters == CreateParameters(args))
  {
    SpansOkIff(parts, 0);
    assert parts[0..] == parts;
  }

  /** The plural-function case of `CreateExpressionShape`. */
  lemma PluralShape(args: seq<Arg>, nth: Form, counted: seq<(DigitString, Form)>)
    ensures var r := CreateExpression(PluralFunction(args, nth, counted));
      (r.Ok? <==> Renderable(nth) && forall i :: 0 <= i < |counted| ==> Renderable(counted[i].1))
      && (r.Ok? ==> r.value.ArrowFunction? && r.value.parameters == CreateParameters(args))
  {
    PluralIfBlocksOkIff(counted);
    FormExprOkIff(nth);
  }

  /** The boolean-function case of `CreateExpressionShape`. */
  lemma BooleanShape(args: seq<Arg>, t: Form, f: Form)
    ensures var r := CreateExpression(BooleanFunction(args, t, f));
      (r.Ok? <==> Renderable(t) && Renderable(f))
      && (r.Ok? ==> r.value.ArrowFunction? && r.value.parameters == CreateParameters(args))
  {
    FormExprOkIff(t);
    FormExprOkIff(f);
  }

  // What the generated functions return.

  /** The string a renderable form stands for under `env`. */
  function FormString(f: Form, env: string -> Value): string
    requires Renderable(f)
  {
    match f
    case Literal(t) => t
    case Parts(parts) => Render(parts, Shown(env))
  }

  /** A form whose parts never hold two adjacent texts (as the string-parts builder produces). */
  ghost predicate WellFormed(f: Form) {
    Renderable(f) && (f.Parts? ==> NoAdjacentTexts(f.parts))
  }

  /**
   * A form's expression evaluates to the string the form stands for when
   * every name it refers to is declared, and throws otherwise.
   */
  lemma FormExprEval(f: Form, scope: set<string>, env: string -> Value)
    requires WellFormed(f)
    ensures FormExpr(f).Ok?
    ensures Eval(FormExpr(f).value, scope, env)
      == if FormRefersOnlyTo(f, scope) then Some(Str(FormString(f, env))) else None
  {
    if f.Parts? {
      CreateTemplateRender(f.parts, scope, env);
    }
  }

  /**
   * The form a plural function returns when `count` is bound to `count`: the
   * first counted form whose key's number is strictly equal to it, else the
   * `n` form.
   */
  function SelectedForm(nth: Form, counted: seq<(DigitString, Form)>, count: Value): (f: Form)
    ensures (forall i :: 0 <= i < |counted| ==> count != Num(DecimalValue(counted[i].0))) ==> f == nth
    ensures forall i :: 0 <= i < |counted| && count == Num(DecimalValue(counted[i].0)) ==>
      (forall j :: 0 <= j < i ==> count != Num(DecimalValue(counted[j].0))) ==> f == counted[i].1
  {
    if counted == [] then nth
    else if count == Num(DecimalValue(counted[0].0)) then counted[0].1
    else
      assert forall i :: 1 <= i < |counted| ==> counted[i] == counted[1..][i - 1];
      SelectedForm(nth, counted[1..], count)
  }

  /**
   * One `if` block ahead of `rest`: it throws without `count` declared,
   * returns its form's string (or throws on an undeclared name) when `count`
   * is strictly equal to its key's number, and otherwise runs on to `rest`.
   */
  lemma PluralIfBlockStep(key: DigitString, f: Form, rest: seq<Stmt>, scope: set<string>, env: string -> Value)
    requires WellFormed(f)
    ensures PluralIfBlock(key, f).Ok?
    ensures Exec([PluralIfBlock(key, f).value] + rest, scope, env)
      == if "count" !in scope then Stuck
        else if env("count") == Num(DecimalValue(key)) then
          (if FormRefersOnlyTo(f, scope) then Returned(Str(FormString(f, env))) else Stuck)
        else Exec(rest, scope, env)
  {
    FormExprEval(f, scope, env);
    var ret := PluralValueReturn(f).value;
    var ifBlock := PluralIfBlock(key, f).value;
    assert ifBlock == If(CountCondition(key), Block([ret]), None);
    assert ([ifBlock] + rest)[1..] == rest;
    if "count" in scope {
      assert Eval(CountCondition(key), scope, env) == Some(Bool(env("count") == Num(DecimalValue(key))));
      if env("count") == Num(DecimalValue(key)) {
        assert ExecStmt(ifBlock, scope, env) == Exec([ret], scope, env);
        assert Exec([ret], scope, env) == ExecStmt(ret, scope, env);
      } else {
        assert ExecStmt(ifBlock, scope, env) == Normal;
      }
    } else {
      assert Eval(IdentifierRef("count"), scope, env) == None;
      assert ExecStmt(ifBlock, scope, env) == Stuck;
    }
  }

  /** The plural statements of a non-empty list of counted forms: the first one's `if` block, then the rest's statements. */
  lemma PluralStatementsCons(nth: Form, counted: seq<(DigitString, Form)>)
    requires counted != []
    requires PluralIfBlock(counted[0].0, counted[0].1).Ok? && PluralStatements(nth, counted[1..]).Ok?
    ensures PluralStatements(nth, counted)
      == Ok([PluralIfBlock(counted[0].0, counted[0].1).value] + PluralStatements(nth, counted[1..]).value)
  {
    var head := PluralIfBlock(counted[0].0, counted[0].1).value;
    var blocks := PluralIfBlocks(counted[1..]).value;
    var ret := PluralValueReturn(nth).value;
    assert PluralIfBlocks(counted) == Ok([head] + blocks);
    assert PluralStatements(nth, counted[1..]).value == blocks + [ret];
    assert ([head] + blocks) + [ret] == [head] + (blocks + [ret]);
  }

  /**
   * Running the plural statements returns the selected form's string; they
   * throw when a counted form is tested without `count` declared or when the
   * selected form refers to an undeclared name.
   */
  lemma {:induction false} PluralStatementsSelect(nth: Form, counted: seq<(DigitString, Form)>, scope: set<string>, env: string -> Value)
    requires WellFormed(nth) && forall i :: 0 <= i < |counted| ==> WellFormed(counted[i].1)
    ensures PluralStatements(nth, counted).Ok?
    ensures WellFormed(SelectedForm(nth, counted, env("count")))
    ensures Exec(PluralStatements(nth, counted).value, scope, env)
      == if ("count" in scope || counted == []) && FormRefersOnlyTo(SelectedForm(nth, counted, env("count")), scope)
        then Returned(Str(FormString(SelectedForm(nth, counted, env("count")), env)))
        else Stuck
  {
    FormExprEval(nth, scope, env);
    if counted == [] {
      assert PluralStatements(nth, counted).value == [Return(FormExpr(nth).value)];
    } else {
      assert forall i :: 1 <= i < |counted| ==> counted[i] == counted[1..][i - 1];
      PluralStatementsSelect(nth, counted[1..], scope, env);
      PluralIfBlockStep(counted[0].0, counted[0].1, PluralStatements(nth, counted[1..]).value, scope, env);
      PluralStatementsCons(nth, counted);
    }
  }

  /**
   * A plural function is an arrow function over its arguments' parameters
   * that returns the string of the first counted form whose number is
   * strictly equal to `count`, or else of the `n` form; it throws when that
   * form refers to a name that is not a parameter, or when there is a counted
   * form and `count` is not a parameter.
   */
  lemma PluralFunctionCall(vd: ValueDescription, env: string -> Value)
    requires vd.PluralFunction?
    requires WellFormed(vd.nth) && forall i :: 0 <= i < |vd.counted| ==> WellFormed(vd.counted[i].1)
    ensures CreateExpression(vd).Ok?
    ensures CreateExpression(vd).value.ArrowFunction?
    ensures CreateExpression(vd).value.parameters == CreateParameters(vd.args)
    ensures WellFormed(SelectedForm(vd.nth, vd.counted, env("count")))
    ensures var e := CreateExpression(vd).value;
      var selected := SelectedForm(vd.nth, vd.counted, env("count"));
      Call(e.parameters, e.body, env)
        == if ("count" in ArgNameSet(vd.args) || vd.counted == []) && FormRefersOnlyTo(selected, ArgNameSet(vd.args))
          then Some(Str(FormString(selected, env)))
          else None
  {
    ParameterScope(vd.args);
    PluralStatementsSelect(vd.nth, vd.counted, ArgNameSet(vd.args), env);
  }

  /**
   * A boolean function is an arrow function over its arguments' parameters
   * that returns the `true` form's string exactly when `bool` is strictly
   * equal to `true`, and the `false` form's otherwise; it throws when `bool`
   * is not a parameter or the chosen form refers to a name that is not one.
   */
  lemma BooleanFunctionCall(vd: ValueDescription, env: string -> Value)
    requires vd.BooleanFunction?
    requires WellFormed(vd.whenTrue) && WellFormed(vd.whenFalse)
    ensures CreateExpression(vd).Ok?
    ensures CreateExpression(vd).value.ArrowFunction?
    ensures CreateExpression(vd).value.parameters == CreateParameters(vd.args)
    ensures var e := CreateExpression(vd).value;
      var chosen := if env("bool") == Bool(true) then vd.whenTrue else vd.whenFalse;
      Call(e.parameters, e.body, env)
        == if "bool" in ArgNameSet(vd.args) && FormRefersOnlyTo(chosen, ArgNameSet(vd.args))
          then Some(Str(FormString(chosen, env)))
          else None
  {
    var scope := ArgNameSet(vd.args);
    ParameterScope(vd.args);
    FormExprEval(vd.whenTrue, scope, env);
    FormExprEval(vd.whenFalse, scope, env);
    var t := PluralValueReturn(vd.whenTrue).value;
    var f := PluralValueReturn(vd.whenFalse).value;
    var s := If(BoolCondition(), Block([t]), Some(Block([f])));
    assert CreateExpression(vd).value.body == BlockBody(Block([s]));
    assert Exec([s], scope, env) == ExecStmt(s, scope, env);
    assert Exec([t], scope, env) == ExecStmt(t, scope, env);
    assert Exec([f], scope, env) == ExecStmt(f, scope, env);
    if "bool" in scope {
      assert Eval(BoolCondition(), scope, env) == Some(Bool(env("bool") == Bool(true)));
    } else {
      assert Eval(IdentifierRef("bool"), scope, env) == None;
    }
  }

  /**
   * A placeholder function is an arrow function over its arguments'
   * parameters that returns its parts with each name replaced by the value
   * bound to it, and throws when a part refers to a name that is not a
   * parameter. Its template can be printed exactly when the parts refer to
   * some name and do not end in two references.
   */
  lemma PlaceholderFunctionCall(vd: ValueDescription, env: string -> Value)
    requires vd.PlaceholderFunction?
    requires Undefined !in vd.stringParts && NoAdjacentTexts(vd.stringParts)
    ensures CreateExpression(vd).Ok?
    ensures CreateExpression(vd).value.ArrowFunction?
    ensures CreateExpression(vd).value.parameters == CreateParameters(vd.args)
    ensures CreateExpression(vd).value.body.Concise? && CreateExpression(vd).value.body.expr.TemplateExpression?
    ensures PrintableSpans(CreateExpression(vd).value.body.expr.spans)
      <==> |ArgNames(vd.stringParts)| > 0 && !EndsInTwoArgNames(vd.stringParts)
    ensures var e := CreateExpression(vd).value;
      Call(e.parameters, e.body, env)
        == if RefersOnlyTo(vd.stringParts, ArgNameSet(vd.args)) then Some(Str(Render(vd.stringParts, Shown(env)))) else None
  {
    ParameterScope(vd.args);
    CreateTemplateRender(vd.stringParts, ArgNameSet(vd.args), env);
    TemplatePrintableIff(vd.stringParts);
  }

  /** A boolean primitive becomes the string `"true"` or `"false"`, not a boolean literal. */
  lemma BooleanPrimitiveBecomesString(b: bool, scope: set<string>, env: string -> Value)
    ensures CreateExpression(Primitive(PBoolean(b))).Ok?
    ensures Eval(CreateExpression(Primitive(PBoolean(b))).value, scope, env) == Some(Str(Show(Bool(b))))
  {
  }

  /** Keys that are identifiers stay bare; a leading digit, a dash or the empty key make a string literal. */
  lemma PropertyNameExamples()
    ensures PropertyNameOf("title_1") == Identifier("title_1")
    ensures PropertyNameOf("$x") == Identifier("$x")
    ensures PropertyNameOf("1st") == StringLiteralName("1st")
    ensures PropertyNameOf("a-b") == StringLiteralName("a-b")
    ensures PropertyNameOf("") == StringLiteralName("")
  {
    assert !IsWordChar("a-b"[1]);
  }
}
