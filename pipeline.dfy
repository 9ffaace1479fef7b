/**
 * The two halves together: a decoded JSON document is converted to a value
 * description and that description to a TypeScript expression, and the
 * functions the expression defines return the translation's text.
 *
 * The document's root goes through `convertObject` whatever its kind, so an
 * array or a string at the root is read through its keys, as
 * `Object.keys` sees them, and a number or a boolean at the root has none.
 */
module Pipeline {
  import opened Wrappers
  import opened JsString
  import opened IntermediateStructure
  import opened RegexUtils
  import opened ArgSets
  import opened StringPartsBuilders
  import opened JsonConversion
  import opened TypeScriptAst
  import opened ParameterCreation
  import opened TemplateExpressionCreation
  import opened ExpressionCreation

  // The root, as `convertObject` reads it.

  /** Elements under their decimal indices, as `Object.keys` lists an array's. */
  function IndexedEntries(items: seq<Json>): (entries: seq<(string, Json)>)
    ensures |entries| == |items|
    ensures forall i :: 0 <= i < |items| ==> entries[i] == (DecimalDigits(i), items[i])
  {
    seq(|items|, i requires 0 <= i < |items| => (DecimalDigits(i), items[i]))
  }

  /** The one-character strings a string's indices read. */
  function Characters(s: string): (cs: seq<Json>)
    ensures |cs| == |s|
    ensures forall i :: 0 <= i < |s| ==> cs[i] == JString([s[i]])
  {
    seq(|s|, i requires 0 <= i < |s| => JString([s[i]]))
  }

  /** The entries `convertObject` sees at the root: its own for an object, indexed ones for an array or a string, none otherwise. */
  function RootEntries(root: Json): seq<(string, Json)> {
    match root
    case JObject(entries) => entries
    case JArray(items) => IndexedEntries(items)
    case JString(s) => IndexedEntries(Characters(s))
    case JNumber(_) => []
    case JBoolean(_) => []
  }

  /** The expression generated for a value inside the document: `convertValue`, then `createExpression`. */
  function Translate(scan: Scanner, v: Json): (r: Result<Expr>)
    ensures r.Err? ==> ConvertValue(scan, v).Err? || CreateExpression(ConvertValue(scan, v).value).Err?
  {
    var vd :- ConvertValue(scan, v);
    CreateExpression(vd)
  }

  /** `getTypeScriptFromObject` up to printing: `convertObject` on the root, then `createExpression`. */
  function Generate(scan: Scanner, root: Json): (r: Result<Expr>)
    ensures r.Err? ==> ConvertObject(scan, RootEntries(root)).Err? || CreateExpression(ConvertObject(scan, RootEntries(root)).value).Err?
  {
    var vd :- ConvertObject(scan, RootEntries(root));
    CreateExpression(vd)
  }

  /**
   * Whatever the root, the document becomes an object literal, or an arrow
   * function when the root's entries form a plural or a boolean form.
   */
  lemma RootKind(scan: Scanner, root: Json)
    ensures Generate(scan, root).Ok? ==>
      var plain := !IsPluralFormObject(RootEntries(root)) && !IsBooleanFormObject(RootEntries(root));
      (Generate(scan, root).value.ObjectLiteral? <==> plain)
      && (Generate(scan, root).value.ArrowFunction? <==> !plain)
  {
    var r := ConvertObject(scan, RootEntries(root));
    ConvertObjectClassification(scan, RootEntries(root));
    if r.Ok? {
      CreateExpressionShape(r.value);
    }
  }

  /** Decimal index strings are keys with digits only, one per index. */
  lemma IndexedKeys(items: seq<Json>)
    ensures UniqueKeys(IndexedEntries(items))
    ensures forall i :: 0 <= i < |items| ==> IsDigits(IndexedEntries(items)[i].0)
  {
    var entries := IndexedEntries(items);
    forall i, j | 0 <= i < j < |entries|
      ensures entries[i].0 != entries[j].0
    {
      DecimalValueOfDigits(i);
      DecimalValueOfDigits(j);
    }
  }

  /** A digit-only key is written as a string literal name. */
  lemma DigitKeyIsStringName(key: string)
    requires IsDigits(key)
    ensures PropertyNameOf(key) == StringLiteralName(key)
  {
    assert !IsIdentifierKey(key) by {
      assert '0' <= key[0] <= '9';
    }
  }

  /** Indexed entries form neither a plural nor a boolean form: `n`, `true` and `false` are not digit strings. */
  lemma IndexedEntriesPlain(items: seq<Json>)
    ensures !IsPluralFormObject(IndexedEntries(items)) && !IsBooleanFormObject(IndexedEntries(items))
  {
    var entries := IndexedEntries(items);
    IndexedKeys(items);
    GetSomeIffKey(entries, PluralFormNthKey);
    GetSomeIffKey(entries, BooleanFormTrueKey);
    forall key | key in Keys(entries)
      ensures IsDigits(key)
    {
      var i :| 0 <= i < |Keys(entries)| && Keys(entries)[i] == key;
    }
    assert !IsDigits(PluralFormNthKey) by {
      assert !('0' <= PluralFormNthKey[0] <= '9');
    }
    assert !IsDigits(BooleanFormTrueKey) by {
      assert !('0' <= BooleanFormTrueKey[0] <= '9');
    }
  }

  /** At the root, an array is read as the plain object of its indexed elements. */
  lemma RootArrayPlain(scan: Scanner, items: seq<Json>)
    ensures ConvertObject(scan, RootEntries(JArray(items))) == SimpleObjectOf(scan, IndexedEntries(items))
  {
    IndexedEntriesPlain(items);
  }

  /**
   * An array at the root becomes an object literal whose properties are the
   * elements' translations under the string names `"0"`, `"1"`, ..., in
   * order; it fails exactly when an element's translation does.
   */
  lemma RootArrayIsIndexedObject(scan: Scanner, items: seq<Json>)
    ensures Generate(scan, JArray(items)).Ok? <==> forall i :: 0 <= i < |items| ==> Translate(scan, items[i]).Ok?
    ensures Generate(scan, JArray(items)).Ok? ==>
      var e := Generate(scan, JArray(items)).value;
      e.ObjectLiteral? && |e.properties| == |items|
      && forall i :: 0 <= i < |items| ==>
        e.properties[i] == (StringLiteralName(DecimalDigits(i)), Translate(scan, items[i]).value)
  {
    var entries := IndexedEntries(items);
    IndexedKeys(items);
    RootArrayPlain(scan, items);
    SimpleObjectEntrywise(scan, entries);
    var so := SimpleObjectOf(scan, entries);
    if so.Ok? {
      var props := so.value.properties;
      ObjectShape(props);
      assert Generate(scan, JArray(items)) == CreateExpression(Object(props));
      forall i | 0 <= i < |items|
        ensures Translate(scan, items[i]) == CreateExpression(props[i].1)
      {
        assert entries[i].1 == items[i];
        assert ConvertValue(scan, items[i]) == Ok(props[i].1);
      }
      if Generate(scan, JArray(items)).Ok? {
        var e := Generate(scan, JArray(items)).value;
        forall i | 0 <= i < |items|
          ensures e.properties[i] == (StringLiteralName(DecimalDigits(i)), Translate(scan, items[i]).value)
        {
          assert props[i].0 == DecimalDigits(i);
          DigitKeyIsStringName(DecimalDigits(i));
        }
      }
    } else {
      var i :| 0 <= i < |items| && ConvertValue(scan, entries[i].1).Err?;
      assert entries[i].1 == items[i];
      assert Translate(scan, items[i]).Err?;
    }
  }

  /** `[1, 2]` at the root gives `{ "0": 1, "1": 2 }`. */
  lemma RootArrayExample(scan: Scanner)
    ensures Generate(scan, JArray([JNumber(1), JNumber(2)]))
      == Ok(ObjectLiteral([(StringLiteralName("0"), NumericLiteral(1)), (StringLiteralName("1"), NumericLiteral(2))]))
  {
    var items := [JNumber(1), JNumber(2)];
    assert Translate(scan, items[0]) == Ok(NumericLiteral(1));
    assert Translate(scan, items[1]) == Ok(NumericLiteral(2));
    RootArrayIsIndexedObject(scan, items);
    assert DecimalDigits(0) == "0" && DecimalDigits(1) == "1";
    var e := Generate(scan, JArray(items)).value;
    assert e.properties[0] == (StringLiteralName("0"), NumericLiteral(1));
    assert e.properties[1] == (StringLiteralName("1"), NumericLiteral(2));
    assert e.properties == [(StringLiteralName("0"), NumericLiteral(1)), (StringLiteralName("1"), NumericLiteral(2))];
  }

  /**
   * A string at the root becomes an object literal with one property per
   * character, under the string names `"0"`, `"1"`, ..., each the
   * translation of that one-character string; when no single character is a
   * placeholder, each property is that character's string literal.
   */
  lemma RootStringIsCharacterObject(scan: Scanner, s: string)
    ensures Generate(scan, JString(s)).Ok? <==> forall i :: 0 <= i < |s| ==> Translate(scan, JString([s[i]])).Ok?
    ensures Generate(scan, JString(s)).Ok? ==>
      var e := Generate(scan, JString(s)).value;
      e.ObjectLiteral? && |e.properties| == |s|
      && forall i :: 0 <= i < |s| ==>
        e.properties[i] == (StringLiteralName(DecimalDigits(i)), Translate(scan, JString([s[i]])).value)
    ensures (forall i :: 0 <= i < |s| ==> |scan([s[i]])| == 0) ==>
      Generate(scan, JString(s)).Ok?
      && forall i :: 0 <= i < |s| ==> Generate(scan, JString(s)).value.properties[i].1 == StringLiteral([s[i]])
  {
    var cs := Characters(s);
    assert Generate(scan, JString(s)) == Generate(scan, JArray(cs));
    RootArrayIsIndexedObject(scan, cs);
    forall i | 0 <= i < |s| && |scan([s[i]])| == 0
      ensures Translate(scan, JString([s[i]])) == Ok(StringLiteral([s[i]]))
    {
      PlainStringIsLiteral(scan, [s[i]]);
    }
  }

  /** A number or a boolean at the root has no keys: it becomes the empty object literal. */
  lemma RootScalarIsEmptyObject(scan: Scanner, root: Json)
    requires root.JNumber? || root.JBoolean?
    ensures Generate(scan, root) == Ok(ObjectLiteral([]))
  {
    IndexedEntriesPlain([]);
    assert RootEntries(root) == IndexedEntries([]);
    ObjectShape([]);
  }

  // Values inside the document.

  /** A string without placeholders is translated to that string's literal. */
  lemma PlainStringIsLiteral(scan: Scanner, s: string)
    requires |scan(s)| == 0
    ensures Translate(scan, JString(s)) == Ok(StringLiteral(s))
  {
  }

  /**
   * A string whose placeholders each occur once in it converts to a
   * placeholder function whose parts are its literals interleaved with
   * references to the placeholder names, each declared by an argument.
   */
  lemma SoleOccurrencesConvert(scan: Scanner, value: string, lits: seq<string>)
    requires |scan(value)| > 0 && |lits| == |scan(value)| + 1
    requires value == Interleave(lits, Texts(scan(value)))
    requires forall i :: 0 <= i < |scan(value)| ==> AtMostOnce(value, scan(value)[i].fullText)
    ensures ConvertValue(scan, JString(value)).Ok?
    ensures var vd := ConvertValue(scan, JString(value)).value;
      vd.PlaceholderFunction?
      && vd.stringParts == Segments(lits, MatchNames(scan(value)))
      && FirstOccurrences(vd.args, ArgsOf(scan(value))) && DistinctNames(vd.args)
      && RefersOnlyTo(vd.stringParts, ArgNameSet(vd.args))
      && Undefined !in vd.stringParts && NoAdjacentTexts(vd.stringParts)
  {
    var ms := scan(value);
    BuildPartsOfSoleOccurrences(lits, ms);
    PlaceholderFunctionArgs(value, ms);
    PlaceholderFunctionBound(value, ms);
    RenderSegments(lits, MatchNames(ms), Shown(_ => Num(0)));
  }

  /**
   * A string whose placeholders each occur once in it becomes an arrow
   * function with one parameter per distinct placeholder name, in order of
   * first appearance; called, it returns the string with every placeholder
   * replaced by the value of its parameter.
   */
  lemma PlaceholderStringSubstitutes(scan: Scanner, value: string, lits: seq<string>, env: string -> Value)
    requires |scan(value)| > 0 && |lits| == |scan(value)| + 1
    requires value == Interleave(lits, Texts(scan(value)))
    requires forall i :: 0 <= i < |scan(value)| ==> AtMostOnce(value, scan(value)[i].fullText)
    ensures ConvertValue(scan, JString(value)).Ok?
    ensures FirstOccurrences(ConvertValue(scan, JString(value)).value.args, ArgsOf(scan(value)))
    ensures Translate(scan, JString(value)).Ok?
    ensures var e := Translate(scan, JString(value)).value;
      e.ArrowFunction?
      && e.parameters == CreateParameters(ConvertValue(scan, JString(value)).value.args)
      && (forall i, j :: 0 <= i < j < |e.parameters| ==> e.parameters[i].name != e.parameters[j].name)
      && Call(e.parameters, e.body, env) == Some(Str(Interleave(lits, Lookup(Shown(env), MatchNames(scan(value))))))
  {
    SoleOccurrencesConvert(scan, value, lits);
    var vd := ConvertValue(scan, JString(value)).value;
    RenderSegments(lits, MatchNames(scan(value)), Shown(env));
    PlaceholderFunctionCall(vd, env);
    assert Translate(scan, JString(value)) == CreateExpression(vd);
  }

  /**
   * The template of a string whose placeholders each occur once in it prints
   * as a well-formed template literal unless the string ends in two
   * placeholders with nothing between or after them.
   */
  lemma PlaceholderStringPrintable(scan: Scanner, value: string, lits: seq<string>)
    requires |scan(value)| > 0 && |lits| == |scan(value)| + 1
    requires value == Interleave(lits, Texts(scan(value)))
    requires forall i :: 0 <= i < |scan(value)| ==> AtMostOnce(value, scan(value)[i].fullText)
    ensures Translate(scan, JString(value)).Ok?
    ensures var e := Translate(scan, JString(value)).value;
      e.ArrowFunction? && e.body.Concise? && e.body.expr.TemplateExpression?
      && (PrintableSpans(e.body.expr.spans)
        <==> !(|lits| >= 3 && lits[|lits| - 1] == "" && lits[|lits| - 2] == ""))
  {
    SoleOccurrencesConvert(scan, value, lits);
    var vd := ConvertValue(scan, JString(value)).value;
    SegmentsEnd(lits, MatchNames(scan(value)));
    PlaceholderFunctionCall(vd, _ => Num(0));
    assert Translate(scan, JString(value)) == CreateExpression(vd);
  }

  /** After parts ending in one lone reference, the whole ends in two references exactly when the rest does or is one reference. */
  lemma EndsAfterLoneArgName(a: seq<Part>, b: seq<Part>)
    requires |a| >= 1 && a[|a| - 1].ArgName? && (|a| >= 2 ==> !a[|a| - 2].ArgName?)
    ensures EndsInTwoArgNames(a + b) <==> (|b| >= 2 && EndsInTwoArgNames(b)) || (|b| == 1 && b[0].ArgName?)
  {
    var ab := a + b;
    if |b| >= 2 {
      assert ab[|ab| - 1] == b[|b| - 1] && ab[|ab| - 2] == b[|b| - 2];
    } else if |b| == 1 {
      assert ab[|ab| - 1] == b[0] && ab[|ab| - 2] == a[|a| - 1];
    } else {
      assert ab == a;
    }
  }

  /**
   * The parts of `lits` interleaved with references end in two references
   * exactly when there are at least two references and the last two
   * literals are empty.
   */
  lemma {:induction false} SegmentsEnd(lits: seq<string>, names: seq<string>)
    requires |lits| == |names| + 1
    ensures |ArgNames(Segments(lits, names))| == |names|
    ensures EndsInTwoArgNames(Segments(lits, names))
      <==> |lits| >= 3 && lits[|lits| - 1] == "" && lits[|lits| - 2] == ""
    decreases |names|
  {
    var parts := Segments(lits, names);
    if names == [] {
      assert parts == NonEmptyText(lits[0]);
    } else {
      var head := NonEmptyText(lits[0]) + [ArgName(names[0])];
      var rest := Segments(lits[1..], names[1..]);
      SegmentsEnd(lits[1..], names[1..]);
      assert parts == head + rest;
      ArgNamesAppend(head, rest);
      ArgNamesAppend(NonEmptyText(lits[0]), [ArgName(names[0])]);
      EndsAfterLoneArgName(head, rest);
      if names[1..] == [] {
        assert rest == NonEmptyText(lits[1]);
      } else {
        SegmentsTail(lits[1..], names[1..]);
        assert lits[1..][|lits[1..]| - 1] == lits[|lits| - 1];
        assert lits[1..][|lits[1..]| - 2] == lits[|lits| - 2];
      }
    }
  }

  /** Parts with at least one reference are a lone reference exactly when that is their one name and both literals are empty. */
  lemma SegmentsTail(lits: seq<string>, names: seq<string>)
    requires |lits| == |names| + 1 && names != []
    ensures var parts := Segments(lits, names);
      |parts| >= 1
      && (|parts| == 1 && parts[0].ArgName? <==> |names| == 1 && lits[0] == "" && lits[1] == "")
  {
    var rest := Segments(lits[1..], names[1..]);
    assert Segments(lits, names) == NonEmptyText(lits[0]) + [ArgName(names[0])] + rest;
    if names[1..] == [] {
      assert rest == NonEmptyText(lits[1..][0]);
    } else {
      SegmentsTail(lits[1..], names[1..]);
    }
  }

  // Plural and boolean forms.

  /** A plural function's first argument is `count`. */
  lemma PluralFirstArg(scan: Scanner, obj: seq<(string, Json)>)
    requires IsPluralFormObject(obj)
    ensures PluralFunctionOf(scan, obj).Ok? ==>
      |PluralFunctionOf(scan, obj).value.args| >= 1 && PluralFunctionOf(scan, obj).value.args[0] == CountArg
  {
    PluralFunctionArgs(scan, obj);
  }

  /** A plural function's first parameter is `count: number`. */
  lemma PluralCountParameter(scan: Scanner, obj: seq<(string, Json)>)
    requires IsPluralFormObject(obj)
    ensures Generate(scan, JObject(obj)).Ok? ==>
      var e := Generate(scan, JObject(obj)).value;
      e.ArrowFunction? && |e.parameters| >= 1 && e.parameters[0] == Parameter("count", Some(NumberKeyword))
  {
    assert ConvertObject(scan, obj) == PluralFunctionOf(scan, obj);
    var r := PluralFunctionOf(scan, obj);
    if r.Ok? {
      PluralFirstArg(scan, obj);
      var vd := r.value;
      PluralShape(vd.args, vd.nth, vd.counted);
      assert Generate(scan, JObject(obj)) == CreateExpression(vd);
    }
  }

  /** The form of a converted string has no two texts in a row. */
  lemma ConvertedFormShape(scan: Scanner, value: string)
    ensures ConvertString(scan, value).Ok? && FormOf(ConvertString(scan, value).value).Parts? ==>
      NoAdjacentTexts(FormOf(ConvertString(scan, value).value).parts)
  {
    if |scan(value)| > 0 {
      PlaceholderFunctionArgs(value, scan(value));
    }
  }

  /**
   * A plural-form object with unique keys, generated: its `n` form is its
   * `n` string's and its counted forms are its other entries' in key order,
   * every one of them well formed.
   */
  lemma PluralObjectForms(scan: Scanner, obj: seq<(string, Json)>)
    requires IsPluralFormObject(obj) && UniqueKeys(obj)
    requires Generate(scan, JObject(obj)).Ok?
    ensures PluralFunctionOf(scan, obj).Ok?
    ensures ConvertString(scan, NthText(obj)).Ok?
    ensures forall i :: 0 <= i < |CountedEntries(obj)| ==> ConvertString(scan, CountedEntries(obj)[i].1.s).Ok?
    ensures var vd := PluralFunctionOf(scan, obj).value;
      var c := CountedEntries(obj);
      vd.nth == FormOf(ConvertString(scan, NthText(obj)).value)
      && |vd.counted| == |c|
      && (forall i :: 0 <= i < |c| ==>
        vd.counted[i].0 == c[i].0 && vd.counted[i].1 == FormOf(ConvertString(scan, c[i].1.s).value))
      && WellFormed(vd.nth)
      && (forall i :: 0 <= i < |vd.counted| ==> WellFormed(vd.counted[i].1))
  {
    assert ConvertObject(scan, obj) == PluralFunctionOf(scan, obj);
    var vd := PluralFunctionOf(scan, obj).value;
    var c := CountedEntries(obj);
    PluralFunctionForms(scan, obj);
    CreateExpressionShape(vd);
    assert Generate(scan, JObject(obj)) == CreateExpression(vd);
    ConvertedFormShape(scan, NthText(obj));
    forall i | 0 <= i < |vd.counted|
      ensures WellFormed(vd.counted[i].1)
    {
      ConvertedFormShape(scan, c[i].1.s);
    }
  }

  /**
   * Calling a generated plural function returns the form of the first
   * counted key whose value is strictly equal to `count`, or, when none is,
   * the `n` form's string, unless that form refers to a name that is not a
   * parameter.
   */
  lemma PluralObjectCall(scan: Scanner, obj: seq<(string, Json)>, env: string -> Value)
    requires IsPluralFormObject(obj) && UniqueKeys(obj)
    requires Generate(scan, JObject(obj)).Ok?
    ensures PluralFunctionOf(scan, obj).Ok?
    ensures Generate(scan, JObject(obj)) == CreateExpression(PluralFunctionOf(scan, obj).value)
    ensures var vd := PluralFunctionOf(scan, obj).value;
      WellFormed(vd.nth) && forall i :: 0 <= i < |vd.counted| ==> WellFormed(vd.counted[i].1)
    ensures var vd := PluralFunctionOf(scan, obj).value;
      var e := Generate(scan, JObject(obj)).value;
      forall i :: 0 <= i < |vd.counted| && env("count") == Num(DecimalValue(vd.counted[i].0)) ==>
        (forall j :: 0 <= j < i ==> env("count") != Num(DecimalValue(vd.counted[j].0))) ==>
        Call(e.parameters, e.body, env) == Some(Str(FormString(vd.counted[i].1, env)))
    ensures var vd := PluralFunctionOf(scan, obj).value;
      var e := Generate(scan, JObject(obj)).value;
      (forall i :: 0 <= i < |vd.counted| ==> env("count") != Num(DecimalValue(vd.counted[i].0))) ==>
        Call(e.parameters, e.body, env)
          == if FormRefersOnlyTo(vd.nth, ArgNameSet(vd.args)) then Some(Str(FormString(vd.nth, env))) else None
  {
    PluralObjectForms(scan, obj);
    var vd := PluralFunctionOf(scan, obj).value;
    PluralFunctionBound(scan, obj);
    assert Generate(scan, JObject(obj)) == CreateExpression(vd);
    PluralFunctionCall(vd, env);
  }

  /** A boolean function's first argument is `bool`. */
  lemma BooleanFirstArg(scan: Scanner, obj: seq<(string, Json)>)
    requires IsBooleanFormObject(obj)
    ensures BooleanFunctionOf(scan, obj).Ok? ==>
      |BooleanFunctionOf(scan, obj).value.args| >= 1 && BooleanFunctionOf(scan, obj).value.args[0] == BoolArg
  {
    BooleanFunctionArgs(scan, obj);
  }

  /** A boolean function's first parameter is `bool`, with no type at all. */
  lemma BooleanParameterUntyped(scan: Scanner, obj: seq<(string, Json)>)
    requires IsBooleanFormObject(obj)
    ensures Generate(scan, JObject(obj)).Ok? ==>
      var e := Generate(scan, JObject(obj)).value;
      e.ArrowFunction? && |e.parameters| >= 1 && e.parameters[0] == Parameter("bool", None)
  {
    PluralAndBooleanFormsExclusive(obj);
    assert ConvertObject(scan, obj) == BooleanFunctionOf(scan, obj);
    var r := BooleanFunctionOf(scan, obj);
    if r.Ok? {
      BooleanFirstArg(scan, obj);
      var vd := r.value;
      BooleanShape(vd.args, vd.whenTrue, vd.whenFalse);
      assert Generate(scan, JObject(obj)) == CreateExpression(vd);
    }
  }

  /**
   * `{"1": "one", "n": "{x}"}`: `count === 1` gives `"one"`; any other count,
   * including the string `"1"`, reads `x`, which is not a parameter of the
   * function, and so throws.
   */
  lemma PluralExampleCall(env: string -> Value)
    ensures Generate(NthOnlyScanner, JObject([("1", JString("one")), ("n", JString("{x}"))])).Ok?
    ensures var e := Generate(NthOnlyScanner, JObject([("1", JString("one")), ("n", JString("{x}"))])).value;
      e.ArrowFunction?
      && e.parameters == [Parameter("count", Some(NumberKeyword))]
      && Call(e.parameters, e.body, env) == if env("count") == Num(1) then Some(Str("one")) else None
  {
    var vd := PluralFunction([CountArg], Parts([ArgName("x")]), [("1", Literal("one"))]);
    PluralNthPlaceholderNotAParameter();
    GeneratedFromObject(NthOnlyScanner, [("1", JString("one")), ("n", JString("{x}"))], vd);
    PluralExampleFunction(vd, env);
  }

  /** An object whose conversion is `vd` is generated as `vd`'s expression. */
  lemma GeneratedFromObject(scan: Scanner, obj: seq<(string, Json)>, vd: ValueDescription)
    requires ConvertObject(scan, obj) == Ok(vd)
    ensures Generate(scan, JObject(obj)) == CreateExpression(vd)
  {
  }

  /** The plural function of the example: `"one"` for the number 1, a throw on the undeclared `x` otherwise. */
  lemma PluralExampleFunction(vd: ValueDescription, env: string -> Value)
    requires vd == PluralFunction([CountArg], Parts([ArgName("x")]), [("1", Literal("one"))])
    ensures CreateExpression(vd).Ok?
    ensures var e := CreateExpression(vd).value;
      e.ArrowFunction?
      && e.parameters == [Parameter("count", Some(NumberKeyword))]
      && Call(e.parameters, e.body, env) == if env("count") == Num(1) then Some(Str("one")) else None
  {
    assert ArgNameSet(vd.args) == {"count"} by {
      assert vd.args[0].name == "count";
    }
    assert !FormRefersOnlyTo(vd.nth, ArgNameSet(vd.args)) by {
      assert vd.nth.parts[0].ArgName? && vd.nth.parts[0].name !in ArgNameSet(vd.args);
    }
    ExampleSelectedForm(vd.nth, vd.counted, env("count"));
    PluralFunctionCall(vd, env);
  }

  /** The form the example selects: `"one"` for the number 1, the `n` form for anything else. */
  lemma ExampleSelectedForm(nth: Form, counted: seq<(DigitString, Form)>, count: Value)
    requires counted == [("1", Literal("one"))]
    ensures SelectedForm(nth, counted, count) == if count == Num(1) then Literal("one") else nth
  {
    assert DecimalValue(counted[0].0) == 1;
  }

  /**
   * `{"true": "yes", "false": "no"}`: `bool === true` gives `"yes"`; any other
   * value, including the string `"true"`, gives `"no"`.
   */
  lemma BooleanExampleCall(env: string -> Value)
    ensures Generate(NoPlaceholders, JObject([("true", JString("yes")), ("false", JString("no")), ("note", JNumber(1))])).Ok?
    ensures var e := Generate(NoPlaceholders, JObject([("true", JString("yes")), ("false", JString("no")), ("note", JNumber(1))])).value;
      e.ArrowFunction?
      && e.parameters == [Parameter("bool", None)]
      && Call(e.parameters, e.body, env) == Some(Str(if env("bool") == Bool(true) then "yes" else "no"))
  {
    var vd := BooleanFunction([BoolArg], Literal("yes"), Literal("no"));
    BooleanFormWithExtraKey();
    GeneratedFromObject(NoPlaceholders, [("true", JString("yes")), ("false", JString("no")), ("note", JNumber(1))], vd);
    BooleanExampleFunction(vd, env);
  }

  /** The boolean function of the example: `"yes"` for `true`, `"no"` otherwise. */
  lemma BooleanExampleFunction(vd: ValueDescription, env: string -> Value)
    requires vd == BooleanFunction([BoolArg], Literal("yes"), Literal("no"))
    ensures CreateExpression(vd).Ok?
    ensures var e := CreateExpression(vd).value;
      e.ArrowFunction?
      && e.parameters == [Parameter("bool", None)]
      && Call(e.parameters, e.body, env) == Some(Str(if env("bool") == Bool(true) then "yes" else "no"))
  {
    assert ArgNameSet(vd.args) == {"bool"} by {
      assert vd.args[0].name == "bool";
    }
    BooleanFunctionCall(vd, env);
  }
}
