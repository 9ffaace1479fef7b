/**
 * Stage one of the compiler: a decoded i18n JSON tree becomes value
 * descriptions. Strings with placeholders become placeholder functions,
 * plural-form objects (`"n"` plus digit keys) plural functions, boolean-form
 * objects (`"true"` and `"false"`) boolean functions, and everything else keeps
 * its shape.
 *
 * The placeholder scanner is a parameter (`scan`). Every conversion returns a
 * `Result`, because the string-parts builder can throw.
 */
module JsonConversion {
  import opened Wrappers
  import opened JsString
  import opened IntermediateStructure
  import opened RegexUtils
  import opened ArgSets
  import opened StringPartsBuilders

  /** A decoded JSON value; an object is its entries in `Object.keys` order. */
  datatype Json =
    | JString(s: string)
    | JNumber(n: int)
    | JBoolean(b: bool)
    | JArray(items: seq<Json>)
    | JObject(entries: seq<(string, Json)>)

  const PluralFormNthKey: string := "n"
  const BooleanFormTrueKey: string := "true"
  const BooleanFormFalseKey: string := "false"

  /** The implicit first argument of every plural function. */
  const CountArg: Arg := Arg("count", NumberArg)

  /** The implicit first argument of every boolean function. */
  const BoolArg: Arg := Arg("bool", BooleanArg)

  // Property access on an object.

  /** The index of the entry with key `key`, or `|obj|` when there is none. */
  function KeyIndex(obj: seq<(string, Json)>, key: string): (k: nat)
    ensures k <= |obj|
    ensures k < |obj| ==> obj[k].0 == key
    ensures forall j :: 0 <= j < k ==> obj[j].0 != key
  {
    if obj == [] then 0
    else if obj[0].0 == key then 0
    else 1 + KeyIndex(obj[1..], key)
  }

  /** `obj[key]`: the value stored under `key`, `None` standing for `undefined`. */
  function Get(obj: seq<(string, Json)>, key: string): Option<Json> {
    var k := KeyIndex(obj, key);
    if k < |obj| then Some(obj[k].1) else None
  }

  /** Keys are unique, as in every JavaScript object. */
  ghost predicate UniqueKeys(obj: seq<(string, Json)>) {
    forall i, j :: 0 <= i < j < |obj| ==> obj[i].0 != obj[j].0
  }

  /** The keys of `obj`, in order. */
  function Keys(obj: seq<(string, Json)>): (ks: seq<string>)
    ensures |ks| == |obj|
    ensures forall i :: 0 <= i < |obj| ==> ks[i] == obj[i].0
  {
    if obj == [] then [] else [obj[0].0] + Keys(obj[1..])
  }

  // The two form tests.

  /** The test `isPluralFormObject` applies to each key: `"n"` or all digits, with a string value. */
  predicate PluralEntry(key: string, value: Json) {
    (key == PluralFormNthKey || IsDigits(key)) && value.JString?
  }

  /** `Object.keys(obj).every(...)` with the plural-entry test. */
  predicate AllPluralEntries(obj: seq<(string, Json)>) {
    forall i :: 0 <= i < |obj| ==> PluralEntry(obj[i].0, obj[i].1)
  }

  /** `isPluralFormObject`: an `n` entry, and only `n` or digit keys, all with string values. */
  predicate IsPluralFormObject(obj: seq<(string, Json)>) {
    Get(obj, PluralFormNthKey).Some? && AllPluralEntries(obj)
  }

  /** `isBooleanFormObject`: `true` and `false` entries with string values; other keys are not looked at. */
  predicate IsBooleanFormObject(obj: seq<(string, Json)>) {
    Get(obj, BooleanFormTrueKey).Some? && Get(obj, BooleanFormTrueKey).value.JString?
    && Get(obj, BooleanFormFalseKey).Some? && Get(obj, BooleanFormFalseKey).value.JString?
  }

  // Strings.

  /** The argument a placeholder match declares. */
  function ArgOf(m: PlaceholderMatch): Arg {
    Arg(m.name, GetTypeFrom(m.typeToken))
  }

  /** The arguments the matches declare, one per match, in order. */
  function ArgsOf(ms: seq<PlaceholderMatch>): (args: seq<Arg>)
    ensures |args| == |ms|
    ensures forall i :: 0 <= i < |ms| ==> args[i] == ArgOf(ms[i])
  {
    if ms == [] then [] else [ArgOf(ms[0])] + ArgsOf(ms[1..])
  }

  /** What `convertStringToPlaceholderFunction` returns. */
  function PlaceholderFunctionOf(value: string, ms: seq<PlaceholderMatch>): (r: Result<ValueDescription>)
    ensures r.Ok? ==> r.value.PlaceholderFunction?
  {
    var parts :- BuildParts(value, ms);
    Ok(PlaceholderFunction(AddArgs(SetAll([], []), ArgsOf(ms)), parts))
  }

  /** `convertString`: the plain string when the scanner finds no placeholder, else a placeholder function. */
  function ConvertString(scan: Scanner, value: string): (r: Result<ValueDescription>)
    ensures |scan(value)| == 0 ==> r == Ok(Primitive(PString(value)))
    ensures |scan(value)| > 0 ==> r.Ok? ==> r.value.PlaceholderFunction?
  {
    var ms := scan(value);
    if |ms| == 0 then Ok(Primitive(PString(value)))
    else PlaceholderFunctionOf(value, ms)
  }

  /** What `convertString` can return: a primitive string or a placeholder function. */
  predicate IsStringConversion(vd: ValueDescription) {
    (vd.Primitive? && vd.value.PString?) || vd.PlaceholderFunction?
  }

  /** The form a converted string is stored as: its raw text, or its string parts. */
  function FormOf(vd: ValueDescription): (f: Form)
    requires IsStringConversion(vd)
    ensures f.Literal? <==> IsPrimitiveStringValueDescription(vd)
  {
    if IsPrimitiveStringValueDescription(vd) then Literal(vd.value.s) else Parts(vd.stringParts)
  }

  /** The arguments a converted form contributes: none for a raw string. */
  function FormArgs(vd: ValueDescription): (args: seq<Arg>)
    requires IsStringConversion(vd)
    ensures IsPrimitiveStringValueDescription(vd) ==> args == []
  {
    if IsPrimitiveStringValueDescription(vd) then [] else vd.args
  }

  // Plural forms.

  /** `values[key] = form` on the forms so far: replace the form of that key, or append it. */
  function SetForm(counted: seq<(DigitString, Form)>, key: DigitString, f: Form): seq<(DigitString, Form)> {
    if counted == [] then [(key, f)]
    else if counted[0].0 == key then [(key, f)] + counted[1..]
    else [counted[0]] + SetForm(counted[1..], key, f)
  }

  /** The `reduce` of `convertPluralFormObject` over the keys other than `n`. */
  function PluralFold(scan: Scanner, obj: seq<(string, Json)>, counted: seq<(DigitString, Form)>, args: seq<Arg>): Result<(seq<(DigitString, Form)>, seq<Arg>)>
    requires AllPluralEntries(obj)
    decreases |obj|
  {
    if obj == [] then Ok((counted, args))
    else if obj[0].0 == PluralFormNthKey then PluralFold(scan, obj[1..], counted, args)
    else
      var key: DigitString := obj[0].0;
      var vd :- ConvertString(scan, obj[0].1.s);
      if IsPrimitiveStringValueDescription(vd) then
        PluralFold(scan, obj[1..], SetForm(counted, key, Literal(vd.value.s)), args)
      else
        PluralFold(scan, obj[1..], SetForm(counted, key, Parts(vd.stringParts)), AddArgs(args, vd.args))
  }

  /** The text of the `n` form of a plural-form object. */
  function NthText(obj: seq<(string, Json)>): string
    requires IsPluralFormObject(obj)
  {
    var k := KeyIndex(obj, PluralFormNthKey);
    assert PluralEntry(obj[k].0, obj[k].1);
    obj[k].1.s
  }

  /** `getPluralFunctionValues`: the `n` form, converted on its own; its arguments are not kept. */
  function NthForm(scan: Scanner, obj: seq<(string, Json)>): Result<Form>
    requires IsPluralFormObject(obj)
  {
    var vd :- ConvertString(scan, NthText(obj));
    Ok(FormOf(vd))
  }

  /** What `convertPluralFormObject` returns. */
  function PluralFunctionOf(scan: Scanner, obj: seq<(string, Json)>): (r: Result<ValueDescription>)
    requires IsPluralFormObject(obj)
    ensures r.Ok? ==> r.value.PluralFunction?
  {
    var nth :- NthForm(scan, obj);
    var folded :- PluralFold(scan, obj, [], SetAll([], [CountArg]));
    Ok(PluralFunction(folded.1, nth, folded.0))
  }

  // Boolean forms.

  /** The text stored under `key`, which a boolean-form object has as a string. */
  function FormText(obj: seq<(string, Json)>, key: string): string
    requires Get(obj, key).Some? && Get(obj, key).value.JString?
  {
    Get(obj, key).value.s
  }

  /** Each key of `keys` names a string entry of `obj`. */
  predicate StringEntries(obj: seq<(string, Json)>, keys: seq<string>) {
    forall i :: 0 <= i < |keys| ==> Get(obj, keys[i]).Some? && Get(obj, keys[i]).value.JString?
  }

  /** The `reduce` of `convertBooleanFormObject` over the keys `true` and `false`. */
  function BooleanFold(scan: Scanner, obj: seq<(string, Json)>, keys: seq<string>, forms: seq<Form>, args: seq<Arg>): (r: Result<(seq<Form>, seq<Arg>)>)
    requires StringEntries(obj, keys)
    ensures r.Ok? ==> |r.value.0| == |forms| + |keys|
    decreases |keys|
  {
    if keys == [] then Ok((forms, args))
    else
      var vd :- ConvertString(scan, FormText(obj, keys[0]));
      if IsPrimitiveStringValueDescription(vd) then
        BooleanFold(scan, obj, keys[1..], forms + [Literal(vd.value.s)], args)
      else
        BooleanFold(scan, obj, keys[1..], forms + [Parts(vd.stringParts)], AddArgs(args, vd.args))
  }

  /** What `convertBooleanFormObject` returns. */
  function BooleanFunctionOf(scan: Scanner, obj: seq<(string, Json)>): (r: Result<ValueDescription>)
    requires IsBooleanFormObject(obj)
    ensures r.Ok? ==> r.value.BooleanFunction?
  {
    var folded :- BooleanFold(scan, obj, [BooleanFormTrueKey, BooleanFormFalseKey], [], SetAll([], [BoolArg]));
    Ok(BooleanFunction(folded.1, folded.0[0], folded.0[1]))
  }

  // Plain objects, arrays and the recursion over the tree.

  /** `propertyDescriptions.set(key, vd)`: replace the entry of that key, or append it. */
  function MapSet(props: seq<(string, ValueDescription)>, key: string, vd: ValueDescription): seq<(string, ValueDescription)>
  {
    if props == [] then [(key, vd)]
    else if props[0].0 == key then [(key, vd)] + props[1..]
    else [props[0]] + MapSet(props[1..], key, vd)
  }

  /** `convertValue`: strings, arrays and objects by their own conversions, numbers and booleans unchanged. */
  function ConvertValue(scan: Scanner, v: Json): (r: Result<ValueDescription>)
    decreases v
  {
    match v
    case JString(s) => ConvertString(scan, s)
    case JArray(items) => ConvertArray(scan, items)
    case JObject(obj) => ConvertObject(scan, obj)
    case JNumber(n) => Ok(Primitive(PNumber(n)))
    case JBoolean(b) => Ok(Primitive(PBoolean(b)))
  }

  /** `convertArray`: every element converted, in order. */
  function ConvertArray(scan: Scanner, items: seq<Json>): (r: Result<ValueDescription>)
    decreases items, 1
  {
    var vds :- ConvertItems(scan, items);
    Ok(Array(vds))
  }

  /** `values.map(convertValue)`, stopping at the first conversion that throws. */
  function ConvertItems(scan: Scanner, items: seq<Json>): (r: Result<seq<ValueDescription>>)
    decreases items, 0
  {
    if items == [] then Ok([])
    else
      var head :- ConvertValue(scan, items[0]);
      var tail :- ConvertItems(scan, items[1..]);
      Ok([head] + tail)
  }

  /** `convertObject`: a plural-form object first, then a boolean-form object, else a plain object. */
  function ConvertObject(scan: Scanner, obj: seq<(string, Json)>): (r: Result<ValueDescription>)
    decreases obj, 2
  {
    if IsPluralFormObject(obj) then PluralFunctionOf(scan, obj)
    else if IsBooleanFormObject(obj) then BooleanFunctionOf(scan, obj)
    else SimpleObjectOf(scan, obj)
  }

  /** What `convertSimpleObject` returns. */
  function SimpleObjectOf(scan: Scanner, obj: seq<(string, Json)>): (r: Result<ValueDescription>)
    ensures r.Ok? ==> r.value.Object?
    decreases obj, 1
  {
    var props :- SimpleFold(scan, obj, []);
    Ok(Object(props))
  }

  /** The loop of `convertSimpleObject`: each value converted and set under its key. */
  function SimpleFold(scan: Scanner, obj: seq<(string, Json)>, props: seq<(string, ValueDescription)>): Result<seq<(string, ValueDescription)>>
    decreases obj, 0
  {
    if obj == [] then Ok(props)
    else
      assert obj[0].1 < obj[0];
      var vd :- ConvertValue(scan, obj[0].1);
      SimpleFold(scan, obj[1..], MapSet(props, obj[0].0, vd))
  }

  // The imperative parts of the conversion.

  /** `for (const arg of args) argSet.add(arg)`. */
  method AddEach(argSet: ArgSet, more: seq<Arg>)
    requires argSet.Valid()
    modifies argSet
    ensures argSet.Valid()
    ensures argSet.args == AddArgs(old(argSet.args), more)
  {
    for j := 0 to |more|
      invariant argSet.Valid()
      invariant AddArgs(argSet.args, more[j..]) == AddArgs(old(argSet.args), more)
    {
      assert more[j..][1..] == more[j + 1..];
      argSet.Add(more[j]);
    }
    assert more[|more|..] == [];
  }

  /** `convertStringToPlaceholderFunction`: each match declares an argument and cuts the string. */
  method ConvertStringToPlaceholderFunction(value: string, placeholderMatches: seq<PlaceholderMatch>) returns (r: Result<ValueDescription>)
    ensures r == PlaceholderFunctionOf(value, placeholderMatches)
  {
    var argSet := new ArgSet([]);
    var stringPartsBuilder := new StringPartsBuilder(value);
    for i := 0 to |placeholderMatches|
      invariant argSet.Valid()
      invariant AddArgs(argSet.args, ArgsOf(placeholderMatches[i..])) == AddArgs(SetAll([], []), ArgsOf(placeholderMatches))
      invariant AddAll(stringPartsBuilder.State(), placeholderMatches[i..]) == AddAll(Initial(value), placeholderMatches)
    {
      var placeholderMatch := placeholderMatches[i];
      assert placeholderMatches[i..][1..] == placeholderMatches[i + 1..];
      assert ArgsOf(placeholderMatches[i..])[1..] == ArgsOf(placeholderMatches[i + 1..]);
      var arg := Arg(placeholderMatch.name, GetTypeFrom(placeholderMatch.typeToken));
      argSet.Add(arg);
      var added := stringPartsBuilder.Add(arg, placeholderMatch.fullText);
      if added.Err? {
        return Err(added.error);
      }
    }
    assert placeholderMatches[|placeholderMatches|..] == [];
    var stringParts := stringPartsBuilder.GetStringPart();
    return Ok(PlaceholderFunction(argSet.Args(), stringParts));
  }

  /** `convertSimpleObject`: every entry converted and set in a fresh map, in key order. */
  method ConvertSimpleObject(scan: Scanner, obj: seq<(string, Json)>) returns (r: Result<ValueDescription>)
    ensures r == SimpleObjectOf(scan, obj)
  {
    var propertyDescriptions: seq<(string, ValueDescription)> := [];
    for i := 0 to |obj|
      invariant SimpleFold(scan, obj[i..], propertyDescriptions) == SimpleFold(scan, obj, [])
    {
      assert obj[i..][1..] == obj[i + 1..];
      var valueDescription := ConvertValue(scan, obj[i].1);
      if valueDescription.Err? {
        return Err(valueDescription.error);
      }
      propertyDescriptions := MapSet(propertyDescriptions, obj[i].0, valueDescription.value);
    }
    assert obj[|obj|..] == [];
    return Ok(Object(propertyDescriptions));
  }

  /** `convertPluralFormObject`: the `n` form first, then the digit keys fold into forms and arguments. */
  method ConvertPluralFormObject(scan: Scanner, obj: seq<(string, Json)>) returns (r: Result<ValueDescription>)
    requires IsPluralFormObject(obj)
    ensures r == PluralFunctionOf(scan, obj)
  {
    var nth := NthForm(scan, obj);
    if nth.Err? {
      return Err(nth.error);
    }
    var values: seq<(DigitString, Form)> := [];
    var argSet := new ArgSet([CountArg]);
    for i := 0 to |obj|
      invariant argSet.Valid()
      invariant PluralFold(scan, obj[i..], values, argSet.args) == PluralFold(scan, obj, [], SetAll([], [CountArg]))
    {
      assert obj[i..][1..] == obj[i + 1..];
      assert PluralEntry(obj[i].0, obj[i].1);
      var key := obj[i].0;
      if key != PluralFormNthKey {
        var valueDescription := ConvertString(scan, obj[i].1.s);
        if valueDescription.Err? {
          return Err(valueDescription.error);
        }
        var vd := valueDescription.value;
        if IsPrimitiveStringValueDescription(vd) {
          values := SetForm(values, key, Literal(vd.value.s));
        } else {
          AddEach(argSet, vd.args);
          values := SetForm(values, key, Parts(vd.stringParts));
        }
      }
    }
    assert obj[|obj|..] == [];
    return Ok(PluralFunction(argSet.Args(), nth.value, values));
  }

  /** `convertBooleanFormObject`: the `true` form, then the `false` form, fold into forms and arguments. */
  method ConvertBooleanFormObject(scan: Scanner, obj: seq<(string, Json)>) returns (r: Result<ValueDescription>)
    requires IsBooleanFormObject(obj)
    ensures r == BooleanFunctionOf(scan, obj)
  {
    var keys := [BooleanFormTrueKey, BooleanFormFalseKey];
    var values: seq<Form> := [];
    var argSet := new ArgSet([BoolArg]);
    for i := 0 to |keys|
      invariant argSet.Valid()
      invariant |values| == i
      invariant BooleanFold(scan, obj, keys[i..], values, argSet.args) == BooleanFold(scan, obj, keys, [], SetAll([], [BoolArg]))
    {
      assert keys[i..][1..] == keys[i + 1..];
      var valueDescription := ConvertString(scan, FormText(obj, keys[i]));
      if valueDescription.Err? {
        return Err(valueDescription.error);
      }
      var vd := valueDescription.value;
      if IsPrimitiveStringValueDescription(vd) {
        values := values + [Literal(vd.value.s)];
      } else {
        AddEach(argSet, vd.args);
        values := values + [Parts(vd.stringParts)];
      }
    }
    assert keys[|keys|..] == [];
    return Ok(BooleanFunction(argSet.Args(), values[0], values[1]));
  }

  // Properties of the classification.

  /** An entry is found by `obj[key]` exactly when `key` is one of the object's keys. */
  lemma GetSomeIffKey(obj: seq<(string, Json)>, key: string)
    ensures Get(obj, key).Some? <==> key in Keys(obj)
  {
    if key in Keys(obj) {
      var i :| 0 <= i < |Keys(obj)| && Keys(obj)[i] == key;
      assert obj[i].0 == key;
    }
  }

  /**
   * `isPluralFormObject` holds exactly when `n` is a key, every key is `n` or
   * a string of digits, and every value is a string.
   */
  lemma PluralFormObjectIff(obj: seq<(string, Json)>)
    ensures IsPluralFormObject(obj) <==>
      PluralFormNthKey in Keys(obj)
      && (forall i :: 0 <= i < |obj| ==> obj[i].0 == PluralFormNthKey || IsDigits(obj[i].0))
      && (forall i :: 0 <= i < |obj| ==> obj[i].1.JString?)
  {
    GetSomeIffKey(obj, PluralFormNthKey);
  }

  /** No key of a plural-form object is `true`. */
  lemma PluralKeyNotTrue(obj: seq<(string, Json)>, i: int)
    requires AllPluralEntries(obj) && 0 <= i < |obj|
    ensures obj[i].0 != BooleanFormTrueKey
  {
    assert PluralEntry(obj[i].0, obj[i].1);
    assert BooleanFormTrueKey[0] == 't';
  }

  /** No object is both a plural-form and a boolean-form object: `true` is neither `n` nor digits. */
  lemma PluralAndBooleanFormsExclusive(obj: seq<(string, Json)>)
    ensures !(IsPluralFormObject(obj) && IsBooleanFormObject(obj))
  {
    if IsPluralFormObject(obj) && Get(obj, BooleanFormTrueKey).Some? {
      PluralKeyNotTrue(obj, KeyIndex(obj, BooleanFormTrueKey));
      assert false;
    }
  }

  /**
   * `convertObject`'s result kind: a plural function exactly for a plural-form
   * object, a boolean function exactly for a boolean-form object, and a plain
   * object for everything else.
   */
  lemma ConvertObjectClassification(scan: Scanner, obj: seq<(string, Json)>)
    ensures ConvertObject(scan, obj).Ok? ==>
      (ConvertObject(scan, obj).value.PluralFunction? <==> IsPluralFormObject(obj))
      && (ConvertObject(scan, obj).value.BooleanFunction? <==> IsBooleanFormObject(obj))
      && (ConvertObject(scan, obj).value.Object? <==> !IsPluralFormObject(obj) && !IsBooleanFormObject(obj))
  {
    PluralAndBooleanFormsExclusive(obj);
  }

  // Properties of string conversion.

  /**
   * A placeholder function's arguments are the matches' arguments with
   * repeated names dropped, each name keeping its first argument and
   * position; its parts refer to the matches' names in order.
   */
  lemma PlaceholderFunctionArgs(value: string, ms: seq<PlaceholderMatch>)
    ensures PlaceholderFunctionOf(value, ms).Ok? ==>
      var vd := PlaceholderFunctionOf(value, ms).value;
      FirstOccurrences(vd.args, ArgsOf(ms)) && DistinctNames(vd.args)
      && ArgNames(vd.stringParts) == MatchNames(ms)
      && NoEmptyText(vd.stringParts) && NoAdjacentTexts(vd.stringParts)
  {
    assert FirstOccurrences([], []);
    AddArgsFirstOccurrences([], ArgsOf(ms), []);
    assert [] + ArgsOf(ms) == ArgsOf(ms);
    assert SetAll([], []) == [];
    if PlaceholderFunctionOf(value, ms).Ok? {
      FirstOccurrencesDistinct(PlaceholderFunctionOf(value, ms).value.args, ArgsOf(ms));
    }
    BuildPartsShape(value, ms);
  }

  /**
   * Round trip: when the scanner finds placeholders in `value`, each of whose
   * texts occurs only once there, the placeholder function's parts, rendered
   * with every argument bound to its own placeholder text, give back `value`.
   */
  lemma ConvertStringRoundTrip(scan: Scanner, value: string, lits: seq<string>, env: string -> string)
    requires |scan(value)| > 0 && |lits| == |scan(value)| + 1
    requires value == Interleave(lits, Texts(scan(value)))
    requires forall i :: 0 <= i < |scan(value)| ==> AtMostOnce(value, scan(value)[i].fullText)
    requires forall i :: 0 <= i < |scan(value)| ==> env(scan(value)[i].name) == scan(value)[i].fullText
    ensures ConvertString(scan, value).Ok?
    ensures ConvertString(scan, value).value.PlaceholderFunction?
    ensures Undefined !in ConvertString(scan, value).value.stringParts
    ensures Render(ConvertString(scan, value).value.stringParts, env) == value
  {
    BuildPartsRenderRoundTrip(lits, scan(value), env);
  }

  // Properties of plural and boolean conversion.

  /** The arguments the forms other than `n` contribute, in key order. */
  function CountedFormArgs(scan: Scanner, obj: seq<(string, Json)>): seq<Arg>
    requires AllPluralEntries(obj)
  {
    if obj == [] then []
    else if obj[0].0 == PluralFormNthKey then CountedFormArgs(scan, obj[1..])
    else
      (match ConvertString(scan, obj[0].1.s)
       case Ok(vd) => FormArgs(vd)
       case Err(_) => []) + CountedFormArgs(scan, obj[1..])
  }

  /** One step of the fold over the forms, at a key other than `n` whose string converts. */
  lemma PluralFoldStep(scan: Scanner, obj: seq<(string, Json)>, counted: seq<(DigitString, Form)>, args: seq<Arg>)
    requires AllPluralEntries(obj) && obj != [] && obj[0].0 != PluralFormNthKey
    requires ConvertString(scan, obj[0].1.s).Ok?
    ensures IsDigits(obj[0].0)
    ensures var vd := ConvertString(scan, obj[0].1.s).value;
      PluralFold(scan, obj, counted, args)
        == PluralFold(scan, obj[1..], SetForm(counted, obj[0].0, FormOf(vd)), AddArgs(args, FormArgs(vd)))
      && CountedFormArgs(scan, obj) == FormArgs(vd) + CountedFormArgs(scan, obj[1..])
  {
    assert PluralEntry(obj[0].0, obj[0].1);
    assert AddArgs(args, []) == args;
  }

  /** Concatenation is associative. */
  lemma AppendAssoc(a: seq<Arg>, b: seq<Arg>, c: seq<Arg>)
    ensures a + b + c == a + (b + c)
  {
  }

  /** The fold over the forms keeps first occurrences of the arguments seen so far. */
  lemma {:induction false} PluralFoldArgs(scan: Scanner, obj: seq<(string, Json)>, counted: seq<(DigitString, Form)>, args: seq<Arg>, history: seq<Arg>)
    requires AllPluralEntries(obj)
    requires FirstOccurrences(args, history)
    ensures PluralFold(scan, obj, counted, args).Ok? ==>
      FirstOccurrences(PluralFold(scan, obj, counted, args).value.1, history + CountedFormArgs(scan, obj))
    decreases |obj|
  {
    if obj == [] {
      assert history + [] == history;
    } else if obj[0].0 == PluralFormNthKey {
      PluralFoldArgs(scan, obj[1..], counted, args, history);
    } else if ConvertString(scan, obj[0].1.s).Ok? {
      var vd := ConvertString(scan, obj[0].1.s).value;
      var more := FormArgs(vd);
      PluralFoldStep(scan, obj, counted, args);
      AddArgsFirstOccurrences(args, more, history);
      PluralFoldArgs(scan, obj[1..], SetForm(counted, obj[0].0, FormOf(vd)), AddArgs(args, more), history + more);
      AppendAssoc(history, more, CountedFormArgs(scan, obj[1..]));
    }
  }

  /** The fold over the forms only appends to the arguments it starts from. */
  lemma {:induction false} PluralFoldKeepsArgs(scan: Scanner, obj: seq<(string, Json)>, counted: seq<(DigitString, Form)>, args: seq<Arg>)
    requires AllPluralEntries(obj)
    ensures PluralFold(scan, obj, counted, args).Ok? ==>
      |PluralFold(scan, obj, counted, args).value.1| >= |args|
      && PluralFold(scan, obj, counted, args).value.1[..|args|] == args
    decreases |obj|
  {
    if obj == [] {
    } else if obj[0].0 == PluralFormNthKey {
      PluralFoldKeepsArgs(scan, obj[1..], counted, args);
    } else if ConvertString(scan, obj[0].1.s).Ok? {
      var vd := ConvertString(scan, obj[0].1.s).value;
      var next := AddArgs(args, FormArgs(vd));
      PluralFoldStep(scan, obj, counted, args);
      AddArgsKeepsPrefix(args, FormArgs(vd));
      PluralFoldKeepsArgs(scan, obj[1..], SetForm(counted, obj[0].0, FormOf(vd)), next);
      var final := PluralFold(scan, obj, counted, args);
      if final.Ok? {
        assert final.value.1[..|args|] == final.value.1[..|next|][..|args|];
      }
    }
  }

  /**
   * A plural function's arguments: `count: number` first, then the arguments
   * of the forms other than `n` in key order, each name once, keeping its
   * first occurrence.
   */
  lemma PluralFunctionArgs(scan: Scanner, obj: seq<(string, Json)>)
    requires IsPluralFormObject(obj)
    ensures PluralFunctionOf(scan, obj).Ok? ==>
      var args := PluralFunctionOf(scan, obj).value.args;
      |args| >= 1 && args[0] == CountArg
      && FirstOccurrences(args, [CountArg] + CountedFormArgs(scan, obj))
      && DistinctNames(args)
  {
    assert SetAll([], [CountArg]) == [CountArg];
    assert FirstOccurrences([CountArg], [CountArg]);
    PluralFoldArgs(scan, obj, [], [CountArg], [CountArg]);
    PluralFoldKeepsArgs(scan, obj, [], [CountArg]);
    var r := PluralFunctionOf(scan, obj);
    if r.Ok? {
      FirstOccurrencesDistinct(r.value.args, [CountArg] + CountedFormArgs(scan, obj));
    }
  }

  /** The entries other than `n`. */
  function CountedEntries(obj: seq<(string, Json)>): (c: seq<(string, Json)>)
    ensures AllPluralEntries(obj) ==> AllPluralEntries(c)
  {
    if obj == [] then []
    else if obj[0].0 == PluralFormNthKey then CountedEntries(obj[1..])
    else [obj[0]] + CountedEntries(obj[1..])
  }

  /** The fold over the forms does not look at the `n` entries. */
  lemma {:induction false} PluralFoldIgnoresNth(scan: Scanner, obj: seq<(string, Json)>, counted: seq<(DigitString, Form)>, args: seq<Arg>)
    requires AllPluralEntries(obj)
    ensures PluralFold(scan, obj, counted, args) == PluralFold(scan, CountedEntries(obj), counted, args)
    decreases |obj|
  {
    if obj != [] {
      var c := CountedEntries(obj);
      if obj[0].0 != PluralFormNthKey {
        assert c[0] == obj[0] && c[1..] == CountedEntries(obj[1..]);
      }
      forall counted', args' {
        PluralFoldIgnoresNth(scan, obj[1..], counted', args');
      }
    }
  }

  /**
   * The `n` form contributes no arguments: two plural-form objects with the
   * same other entries get the same arguments and the same counted forms,
   * whatever their `n` texts are.
   */
  lemma PluralArgsIgnoreNthForm(scan: Scanner, obj1: seq<(string, Json)>, obj2: seq<(string, Json)>)
    requires IsPluralFormObject(obj1) && IsPluralFormObject(obj2)
    requires CountedEntries(obj1) == CountedEntries(obj2)
    requires PluralFunctionOf(scan, obj1).Ok? && PluralFunctionOf(scan, obj2).Ok?
    ensures PluralFunctionOf(scan, obj1).value.args == PluralFunctionOf(scan, obj2).value.args
    ensures PluralFunctionOf(scan, obj1).value.counted == PluralFunctionOf(scan, obj2).value.counted
  {
    PluralFoldIgnoresNth(scan, obj1, [], SetAll([], [CountArg]));
    PluralFoldIgnoresNth(scan, obj2, [], SetAll([], [CountArg]));
  }

  /**
   * When the forms other than `n` have no placeholders, `count` is the only
   * argument, even if the `n` form has placeholders of its own.
   */
  lemma PluralArgsOnlyCount(scan: Scanner, obj: seq<(string, Json)>)
    requires IsPluralFormObject(obj)
    requires forall i :: 0 <= i < |obj| && obj[i].0 != PluralFormNthKey ==> scan(obj[i].1.s) == []
    ensures PluralFunctionOf(scan, obj).Ok? ==> PluralFunctionOf(scan, obj).value.args == [CountArg]
  {
    NoCountedFormArgs(scan, obj);
    PluralFunctionArgs(scan, obj);
    var r := PluralFunctionOf(scan, obj);
    if r.Ok? {
      assert [CountArg] + [] == [CountArg];
      FirstOccurrencesLength(r.value.args, [CountArg]);
    }
  }

  /** Forms without placeholders contribute no arguments. */
  lemma {:induction false} NoCountedFormArgs(scan: Scanner, obj: seq<(string, Json)>)
    requires AllPluralEntries(obj)
    requires forall i :: 0 <= i < |obj| && obj[i].0 != PluralFormNthKey ==> scan(obj[i].1.s) == []
    ensures CountedFormArgs(scan, obj) == []
  {
    if obj != [] {
      NoCountedFormArgs(scan, obj[1..]);
    }
  }

  /** The entries other than `n` are entries of the object, and keep its keys unique. */
  lemma {:induction false} CountedEntriesOfObject(obj: seq<(string, Json)>)
    ensures forall i :: 0 <= i < |CountedEntries(obj)| ==> CountedEntries(obj)[i].0 != PluralFormNthKey
    ensures forall i :: 0 <= i < |CountedEntries(obj)| ==> CountedEntries(obj)[i] in obj
    ensures UniqueKeys(obj) ==> UniqueKeys(CountedEntries(obj))
  {
    if obj != [] {
      var rest := obj[1..];
      CountedEntriesOfObject(rest);
      var c := CountedEntries(obj);
      var c' := CountedEntries(rest);
      assert forall e :: e in rest ==> e in obj;
      if obj[0].0 == PluralFormNthKey {
        assert c == c';
      } else {
        assert c == [obj[0]] + c';
        assert forall i :: 1 <= i < |c| ==> c[i] == c'[i - 1];
      }
      if UniqueKeys(obj) {
        assert UniqueKeys(rest) by {
          assert forall i :: 0 <= i < |rest| ==> rest[i] == obj[i + 1];
        }
        if obj[0].0 != PluralFormNthKey {
          forall j | 0 <= j < |c'| ensures c'[j].0 != obj[0].0 {
            var k :| 0 <= k < |rest| && rest[k] == c'[j];
            assert rest[k] == obj[k + 1];
          }
        }
      }
    }
  }

  /** Setting the form of a key the forms do not have yet appends it. */
  lemma {:induction false} SetFormNew(counted: seq<(DigitString, Form)>, key: DigitString, f: Form)
    requires forall j :: 0 <= j < |counted| ==> counted[j].0 != key
    ensures SetForm(counted, key, f) == counted + [(key, f)]
  {
    if counted != [] {
      SetFormNew(counted[1..], key, f);
    }
  }

  /** Over entries without `n`, the fold succeeds exactly when every entry's string converts. */
  lemma {:induction false} PluralFoldConverts(scan: Scanner, obj: seq<(string, Json)>, counted: seq<(DigitString, Form)>, args: seq<Arg>)
    requires AllPluralEntries(obj)
    requires forall i :: 0 <= i < |obj| ==> obj[i].0 != PluralFormNthKey
    ensures PluralFold(scan, obj, counted, args).Ok? <==> forall i :: 0 <= i < |obj| ==> ConvertString(scan, obj[i].1.s).Ok?
    decreases |obj|
  {
    if obj != [] {
      assert PluralEntry(obj[0].0, obj[0].1);
      var rest := obj[1..];
      assert forall i :: 0 <= i < |rest| ==> rest[i] == obj[i + 1];
      if ConvertString(scan, obj[0].1.s).Ok? {
        PluralFoldStep(scan, obj, counted, args);
        var vd := ConvertString(scan, obj[0].1.s).value;
        PluralFoldConverts(scan, rest, SetForm(counted, obj[0].0, FormOf(vd)), AddArgs(args, FormArgs(vd)));
      }
    }
  }

  /**
   * Over entries without `n` whose keys are unique and new, a successful fold
   * appends each key with its converted form, in order.
   */
  lemma {:induction false} PluralFoldForms(scan: Scanner, obj: seq<(string, Json)>, counted: seq<(DigitString, Form)>, args: seq<Arg>)
    requires AllPluralEntries(obj) && UniqueKeys(obj)
    requires forall i :: 0 <= i < |obj| ==> obj[i].0 != PluralFormNthKey
    requires forall i, j :: 0 <= i < |obj| && 0 <= j < |counted| ==> obj[i].0 != counted[j].0
    ensures PluralFold(scan, obj, counted, args).Ok? ==>
      var r := PluralFold(scan, obj, counted, args).value.0;
      |r| == |counted| + |obj| && r[..|counted|] == counted && FormsFrom(scan, obj, r, |counted|)
    decreases |obj|
  {
    if obj != [] && ConvertString(scan, obj[0].1.s).Ok? {
      var vd := ConvertString(scan, obj[0].1.s).value;
      PluralFoldStep(scan, obj, counted, args);
      var key: DigitString := obj[0].0;
      SetFormNew(counted, key, FormOf(vd));
      var counted' := counted + [(key, FormOf(vd))];
      KeysStayNew(obj, counted, FormOf(vd));
      PluralFoldForms(scan, obj[1..], counted', AddArgs(args, FormArgs(vd)));
      var whole := PluralFold(scan, obj, counted, args);
      if whole.Ok? {
        var r := whole.value.0;
        ShiftedForms(r, counted, key, FormOf(vd));
        FormsShift(scan, obj, r, |counted|, |counted'|);
      }
    }
  }

  /** After the first entry's key is set, the other entries' keys are still unique, not `n`, and new. */
  lemma KeysStayNew(obj: seq<(string, Json)>, counted: seq<(DigitString, Form)>, f: Form)
    requires obj != [] && IsDigits(obj[0].0) && UniqueKeys(obj)
    requires forall i :: 0 <= i < |obj| ==> obj[i].0 != PluralFormNthKey
    requires forall i, j :: 0 <= i < |obj| && 0 <= j < |counted| ==> obj[i].0 != counted[j].0
    ensures UniqueKeys(obj[1..])
    ensures forall i :: 0 <= i < |obj[1..]| ==> obj[1..][i].0 != PluralFormNthKey
    ensures var counted' := counted + [(obj[0].0, f)];
      forall i, j :: 0 <= i < |obj[1..]| && 0 <= j < |counted'| ==> obj[1..][i].0 != counted'[j].0
  {
    var rest := obj[1..];
    var counted' := counted + [(obj[0].0, f)];
    forall i, j | 0 <= i < |rest| && 0 <= j < |counted'|
      ensures rest[i].0 != counted'[j].0
    {
      assert rest[i] == obj[i + 1];
      if j < |counted| {
        assert counted'[j] == counted[j];
      }
    }
    assert UniqueKeys(rest) by {
      assert forall i :: 0 <= i < |rest| ==> rest[i] == obj[i + 1];
    }
  }

  /** From index `k` on, `r` holds each entry's key with the form its string converts to. */
  ghost predicate FormsFrom(scan: Scanner, obj: seq<(string, Json)>, r: seq<(DigitString, Form)>, k: nat)
    requires AllPluralEntries(obj) && |r| == k + |obj|
  {
    forall i :: 0 <= i < |obj| ==>
      ConvertString(scan, obj[i].1.s).Ok?
      && r[k + i].0 == obj[i].0 && r[k + i].1 == FormOf(ConvertString(scan, obj[i].1.s).value)
  }

  /** The head's form at `k` and the tail's forms from `k + 1` on are the forms from `k` on. */
  lemma FormsShift(scan: Scanner, obj: seq<(string, Json)>, r: seq<(DigitString, Form)>, k: nat, k': nat)
    requires AllPluralEntries(obj) && obj != [] && |r| == k + |obj| && k' == k + 1
    requires ConvertString(scan, obj[0].1.s).Ok?
    requires r[k].0 == obj[0].0 && r[k].1 == FormOf(ConvertString(scan, obj[0].1.s).value)
    requires FormsFrom(scan, obj[1..], r, k')
    ensures FormsFrom(scan, obj, r, k)
  {
    forall i | 0 < i < |obj|
      ensures ConvertString(scan, obj[i].1.s).Ok?
      ensures r[k + i].0 == obj[i].0 && r[k + i].1 == FormOf(ConvertString(scan, obj[i].1.s).value)
    {
      assert obj[i] == obj[1..][i - 1];
      assert k + i == k' + (i - 1);
    }
  }

  /** A list whose prefix is `counted + [(key, f)]` has prefix `counted` followed by `(key, f)`. */
  lemma ShiftedForms(r: seq<(DigitString, Form)>, counted: seq<(DigitString, Form)>, key: DigitString, f: Form)
    requires |r| > |counted| && r[..|counted| + 1] == counted + [(key, f)]
    ensures r[..|counted|] == counted && r[|counted|] == (key, f)
  {
    assert r[..|counted|] == r[..|counted| + 1][..|counted|];
    assert r[|counted|] == r[..|counted| + 1][|counted|];
  }

  /**
   * The forms of a plural function, for an object with unique keys: it is
   * built exactly when the `n` string and every other string convert; its
   * `n` form is the `n` string's, and its counted forms are the other
   * entries' keys in order, each with its own string's form.
   */
  lemma PluralFunctionForms(scan: Scanner, obj: seq<(string, Json)>)
    requires IsPluralFormObject(obj) && UniqueKeys(obj)
    ensures var c := CountedEntries(obj);
      PluralFunctionOf(scan, obj).Ok?
      <==> ConvertString(scan, NthText(obj)).Ok? && forall i :: 0 <= i < |c| ==> ConvertString(scan, c[i].1.s).Ok?
    ensures PluralFunctionOf(scan, obj).Ok? ==>
      var vd := PluralFunctionOf(scan, obj).value;
      var c := CountedEntries(obj);
      vd.nth == FormOf(ConvertString(scan, NthText(obj)).value)
      && |vd.counted| == |c|
      && forall i :: 0 <= i < |c| ==>
        vd.counted[i].0 == c[i].0 && vd.counted[i].1 == FormOf(ConvertString(scan, c[i].1.s).value)
  {
    var c := CountedEntries(obj);
    var args := SetAll([], [CountArg]);
    CountedEntriesOfObject(obj);
    PluralFoldIgnoresNth(scan, obj, [], args);
    PluralFoldConverts(scan, c, [], args);
    PluralFoldForms(scan, c, [], args);
    var nth := ConvertString(scan, NthText(obj));
    var folded := PluralFold(scan, c, [], args);
    assert PluralFunctionOf(scan, obj).Ok? <==> nth.Ok? && folded.Ok?;
    if nth.Ok? && folded.Ok? {
      assert PluralFunctionOf(scan, obj).value == PluralFunction(folded.value.1, FormOf(nth.value), folded.value.0);
      assert folded.value.0[..0] == [];
      forall i | 0 <= i < |c|
        ensures folded.value.0[i] == folded.value.0[0 + i]
      {
      }
    }
  }

  /** Every name a placeholder function's parts refer to is one of its arguments. */
  lemma PlaceholderFunctionBound(value: string, ms: seq<PlaceholderMatch>)
    ensures PlaceholderFunctionOf(value, ms).Ok? ==>
      var vd := PlaceholderFunctionOf(value, ms).value;
      RefersOnlyTo(vd.stringParts, ArgNameSet(vd.args))
  {
    PlaceholderFunctionArgs(value, ms);
    var r := PlaceholderFunctionOf(value, ms);
    if r.Ok? {
      var vd := r.value;
      forall i | 0 <= i < |vd.stringParts| && vd.stringParts[i].ArgName?
        ensures vd.stringParts[i].name in ArgNameSet(vd.args)
      {
        var name := vd.stringParts[i].name;
        ArgNameListed(vd.stringParts, i);
        var j :| 0 <= j < |ms| && MatchNames(ms)[j] == name;
        assert ArgsOf(ms)[j].name == name;
        assert Has(vd.args, name);
        assert vd.args[FirstIndex(vd.args, name)].name == name;
      }
    }
  }

  /** A converted string's form refers only to the arguments it contributes. */
  lemma ConvertStringBound(scan: Scanner, value: string)
    ensures ConvertString(scan, value).Ok? ==>
      var vd := ConvertString(scan, value).value;
      FormRefersOnlyTo(FormOf(vd), ArgNameSet(FormArgs(vd)))
  {
    if |scan(value)| > 0 {
      PlaceholderFunctionBound(value, scan(value));
    }
  }

  /** Setting a form keeps every form referring only to `names` when the new one does. */
  lemma {:induction false} SetFormRefers(counted: seq<(DigitString, Form)>, key: DigitString, f: Form, names: set<string>)
    requires forall i :: 0 <= i < |counted| ==> FormRefersOnlyTo(counted[i].1, names)
    requires FormRefersOnlyTo(f, names)
    ensures var r := SetForm(counted, key, f);
      forall i :: 0 <= i < |r| ==> FormRefersOnlyTo(r[i].1, names)
  {
    var r := SetForm(counted, key, f);
    if counted == [] {
      assert r == [(key, f)];
    } else if counted[0].0 == key {
      assert r == [(key, f)] + counted[1..];
      assert forall i :: 1 <= i < |r| ==> r[i] == counted[i];
    } else {
      SetFormRefers(counted[1..], key, f, names);
      assert r == [counted[0]] + SetForm(counted[1..], key, f);
      assert forall i :: 1 <= i < |r| ==> r[i] == SetForm(counted[1..], key, f)[i - 1];
    }
  }

  /** The fold keeps every form referring only to the arguments collected so far. */
  lemma {:induction false} PluralFoldBound(scan: Scanner, obj: seq<(string, Json)>, counted: seq<(DigitString, Form)>, args: seq<Arg>)
    requires AllPluralEntries(obj)
    requires forall i :: 0 <= i < |counted| ==> FormRefersOnlyTo(counted[i].1, ArgNameSet(args))
    ensures PluralFold(scan, obj, counted, args).Ok? ==>
      forall i :: 0 <= i < |PluralFold(scan, obj, counted, args).value.0| ==>
        FormRefersOnlyTo(PluralFold(scan, obj, counted, args).value.0[i].1, ArgNameSet(PluralFold(scan, obj, counted, args).value.1))
    decreases |obj|
  {
    if obj != [] {
      assert PluralEntry(obj[0].0, obj[0].1);
      if obj[0].0 == PluralFormNthKey {
        PluralFoldBound(scan, obj[1..], counted, args);
        assert PluralFold(scan, obj, counted, args) == PluralFold(scan, obj[1..], counted, args);
      } else if ConvertString(scan, obj[0].1.s).Ok? {
        PluralFoldStep(scan, obj, counted, args);
        var vd := ConvertString(scan, obj[0].1.s).value;
        var key: DigitString := obj[0].0;
        var next := AddArgs(args, FormArgs(vd));
        AddArgsNames(args, FormArgs(vd));
        ConvertStringBound(scan, obj[0].1.s);
        forall i | 0 <= i < |counted| ensures FormRefersOnlyTo(counted[i].1, ArgNameSet(next)) {
          assert FormRefersOnlyTo(counted[i].1, ArgNameSet(args));
        }
        SetFormRefers(counted, key, FormOf(vd), ArgNameSet(next));
        PluralFoldBound(scan, obj[1..], SetForm(counted, key, FormOf(vd)), next);
      }
    }
  }

  /**
   * Every counted form of a plural function refers only to its parameters,
   * and `count` is one of them; the `n` form is not covered.
   */
  lemma PluralFunctionBound(scan: Scanner, obj: seq<(string, Json)>)
    requires IsPluralFormObject(obj)
    ensures PluralFunctionOf(scan, obj).Ok? ==>
      var vd := PluralFunctionOf(scan, obj).value;
      "count" in ArgNameSet(vd.args)
      && forall i :: 0 <= i < |vd.counted| ==> FormRefersOnlyTo(vd.counted[i].1, ArgNameSet(vd.args))
  {
    assert SetAll([], [CountArg]) == [CountArg];
    PluralFoldBound(scan, obj, [], [CountArg]);
    PluralFunctionArgs(scan, obj);
    var r := PluralFunctionOf(scan, obj);
    if r.Ok? {
      var folded := PluralFold(scan, obj, [], [CountArg]).value;
      assert r.value.args == folded.1 && r.value.counted == folded.0;
      assert r.value.args[0].name == "count";
    }
  }

  /** One step of the fold over the boolean forms, at a key whose string converts. */
  lemma BooleanFoldStep(scan: Scanner, obj: seq<(string, Json)>, keys: seq<string>, forms: seq<Form>, args: seq<Arg>)
    requires StringEntries(obj, keys) && keys != []
    requires ConvertString(scan, FormText(obj, keys[0])).Ok?
    ensures StringEntries(obj, keys[1..])
    ensures var vd := ConvertString(scan, FormText(obj, keys[0])).value;
      BooleanFold(scan, obj, keys, forms, args)
        == BooleanFold(scan, obj, keys[1..], forms + [FormOf(vd)], AddArgs(args, FormArgs(vd)))
  {
    assert AddArgs(args, []) == args;
  }

  /**
   * A boolean function's arguments: `bool: boolean` first, then the `true`
   * form's arguments, then the `false` form's, each name once, keeping its
   * first occurrence; its two forms are the converted `true` and `false` strings.
   */
  lemma BooleanFunctionArgs(scan: Scanner, obj: seq<(string, Json)>)
    requires IsBooleanFormObject(obj)
    ensures BooleanFunctionOf(scan, obj).Ok? ==>
      var t := ConvertString(scan, FormText(obj, BooleanFormTrueKey));
      var f := ConvertString(scan, FormText(obj, BooleanFormFalseKey));
      var vd := BooleanFunctionOf(scan, obj).value;
      t.Ok? && f.Ok?
      && vd.whenTrue == FormOf(t.value) && vd.whenFalse == FormOf(f.value)
      && |vd.args| >= 1 && vd.args[0] == BoolArg
      && FirstOccurrences(vd.args, [BoolArg] + FormArgs(t.value) + FormArgs(f.value))
      && DistinctNames(vd.args)
  {
    var t := ConvertString(scan, FormText(obj, BooleanFormTrueKey));
    var f := ConvertString(scan, FormText(obj, BooleanFormFalseKey));
    BooleanFunctionValue(scan, obj);
    if t.Ok? && f.Ok? {
      BooleanArgsOfForms(FormArgs(t.value), FormArgs(f.value));
    }
  }

  /** The boolean function is built from both converted forms, when both convert. */
  lemma BooleanFunctionValue(scan: Scanner, obj: seq<(string, Json)>)
    requires IsBooleanFormObject(obj)
    ensures var t := ConvertString(scan, FormText(obj, BooleanFormTrueKey));
      var f := ConvertString(scan, FormText(obj, BooleanFormFalseKey));
      BooleanFunctionOf(scan, obj).Ok? ==>
        t.Ok? && f.Ok?
        && BooleanFunctionOf(scan, obj)
          == Ok(BooleanFunction(AddArgs(AddArgs([BoolArg], FormArgs(t.value)), FormArgs(f.value)), FormOf(t.value), FormOf(f.value)))
  {
    var keys := [BooleanFormTrueKey, BooleanFormFalseKey];
    var t := ConvertString(scan, FormText(obj, BooleanFormTrueKey));
    var f := ConvertString(scan, FormText(obj, BooleanFormFalseKey));
    assert SetAll([], [BoolArg]) == [BoolArg];
    assert keys[0] == BooleanFormTrueKey && keys[1..] == [BooleanFormFalseKey];
    if t.Ok? {
      BooleanFoldStep(scan, obj, keys, [], [BoolArg]);
      if f.Ok? {
        var a1 := AddArgs([BoolArg], FormArgs(t.value));
        BooleanFoldStep(scan, obj, keys[1..], [FormOf(t.value)], a1);
        assert keys[1..][1..] == [];
      }
    }
  }

  /** `bool` followed by the two forms' arguments, each name once at its first occurrence. */
  lemma BooleanArgsOfForms(ta: seq<Arg>, fa: seq<Arg>)
    ensures var a2 := AddArgs(AddArgs([BoolArg], ta), fa);
      |a2| >= 1 && a2[0] == BoolArg
      && FirstOccurrences(a2, [BoolArg] + ta + fa)
      && DistinctNames(a2)
  {
    var a1 := AddArgs([BoolArg], ta);
    var a2 := AddArgs(a1, fa);
    assert FirstOccurrences([BoolArg], [BoolArg]);
    AddArgsFirstOccurrences([BoolArg], ta, [BoolArg]);
    AddArgsFirstOccurrences(a1, fa, [BoolArg] + ta);
    AddArgsKeepsPrefix([BoolArg], ta);
    AddArgsKeepsPrefix(a1, fa);
    assert a2[..|a1|][..1] == a2[..1];
    FirstOccurrencesDistinct(a2, [BoolArg] + ta + fa);
  }

  /** The fold over the boolean forms reads nothing but the texts of its keys. */
  lemma {:induction false} BooleanFoldSameTexts(scan: Scanner, obj1: seq<(string, Json)>, obj2: seq<(string, Json)>, keys: seq<string>, forms: seq<Form>, args: seq<Arg>)
    requires StringEntries(obj1, keys) && StringEntries(obj2, keys)
    requires forall i :: 0 <= i < |keys| ==> Get(obj1, keys[i]) == Get(obj2, keys[i])
    ensures BooleanFold(scan, obj1, keys, forms, args) == BooleanFold(scan, obj2, keys, forms, args)
    decreases |keys|
  {
    if keys != [] {
      assert FormText(obj1, keys[0]) == FormText(obj2, keys[0]);
      forall forms', args' {
        BooleanFoldSameTexts(scan, obj1, obj2, keys[1..], forms', args');
      }
    }
  }

  /**
   * The boolean-form test and conversion read only the `true` and `false`
   * entries: two objects that agree on those are both boolean-form objects or
   * neither, and convert alike, whatever other keys they have.
   */
  lemma BooleanFormIgnoresOtherKeys(scan: Scanner, obj1: seq<(string, Json)>, obj2: seq<(string, Json)>)
    requires Get(obj1, BooleanFormTrueKey) == Get(obj2, BooleanFormTrueKey)
    requires Get(obj1, BooleanFormFalseKey) == Get(obj2, BooleanFormFalseKey)
    ensures IsBooleanFormObject(obj1) <==> IsBooleanFormObject(obj2)
    ensures IsBooleanFormObject(obj1) ==> BooleanFunctionOf(scan, obj1) == BooleanFunctionOf(scan, obj2)
  {
    if IsBooleanFormObject(obj1) {
      BooleanFoldSameTexts(scan, obj1, obj2, [BooleanFormTrueKey, BooleanFormFalseKey], [], SetAll([], [BoolArg]));
    }
  }

  /** A scanner that finds no placeholder anywhere. */
  function NoPlaceholders(s: string): seq<PlaceholderMatch> {
    []
  }

  /** An object with `true`, `false` and an unrelated key converts to a boolean function that drops the extra key. */
  lemma BooleanFormWithExtraKey()
    ensures ConvertObject(NoPlaceholders, [("true", JString("yes")), ("false", JString("no")), ("note", JNumber(1))])
      == Ok(BooleanFunction([BoolArg], Literal("yes"), Literal("no")))
  {
    var obj := [("true", JString("yes")), ("false", JString("no")), ("note", JNumber(1))];
    assert KeyIndex(obj, PluralFormNthKey) == 3;
    assert KeyIndex(obj, BooleanFormTrueKey) == 0;
    assert KeyIndex(obj, BooleanFormFalseKey) == 1;
    assert IsBooleanFormObject(obj);
    assert FormText(obj, BooleanFormTrueKey) == "yes" && FormText(obj, BooleanFormFalseKey) == "no";
    var keys := [BooleanFormTrueKey, BooleanFormFalseKey];
    assert SetAll([], [BoolArg]) == [BoolArg];
    BooleanFoldStep(NoPlaceholders, obj, keys, [], [BoolArg]);
    assert keys[1..] == [BooleanFormFalseKey] && keys[1..][1..] == [];
    assert AddArgs([BoolArg], []) == [BoolArg];
    BooleanFoldStep(NoPlaceholders, obj, keys[1..], [Literal("yes")], [BoolArg]);
  }

  /**
   * The `n` form's placeholders are not parameters: `{"1": "one", "n": "{x}"}`
   * becomes a plural function whose only argument is `count`, while its `n`
   * form refers to `x`.
   */
  lemma PluralNthPlaceholderNotAParameter()
    ensures ConvertObject(NthOnlyScanner, [("1", JString("one")), ("n", JString("{x}"))])
      == Ok(PluralFunction([CountArg], Parts([ArgName("x")]), [("1", Literal("one"))]))
  {
    var obj := [("1", JString("one")), ("n", JString("{x}"))];
    assert IsDigits("1");
    assert KeyIndex(obj, PluralFormNthKey) == 1;
    assert IsPluralFormObject(obj);
    assert NthText(obj) == "{x}";
    PlaceholderXParts();
    assert NthForm(NthOnlyScanner, obj) == Ok(Parts([ArgName("x")]));
    assert SetAll([], [CountArg]) == [CountArg];
    assert ConvertString(NthOnlyScanner, "one") == Ok(Primitive(PString("one")));
    assert obj[1..][1..] == [];
    assert PluralFold(NthOnlyScanner, obj, [], [CountArg]) == Ok(([("1", Literal("one"))], [CountArg]));
  }

  /** `"{x}"`, with its one placeholder found, is the single part `x`. */
  lemma PlaceholderXParts()
    ensures ConvertString(NthOnlyScanner, "{x}").Ok?
    ensures ConvertString(NthOnlyScanner, "{x}").value.PlaceholderFunction?
    ensures ConvertString(NthOnlyScanner, "{x}").value.stringParts == [ArgName("x")]
  {
    var m := PlaceholderMatch("{x}", "x", "");
    assert Interleave(["", ""], Texts([m])) == "{x}";
    forall i, j | OccursAt("{x}", "{x}", i) && OccursAt("{x}", "{x}", j)
      ensures i == j
    {
    }
    BuildPartsOfSoleOccurrences(["", ""], [m]);
    assert Segments(["", ""], MatchNames([m])) == [ArgName("x")];
  }

  /** A scanner that finds the one placeholder of `"{x}"` and nothing elsewhere. */
  function NthOnlyScanner(s: string): seq<PlaceholderMatch> {
    if s == "{x}" then [PlaceholderMatch("{x}", "x", "")] else []
  }

  // Properties of arrays, plain objects and the recursion.

  /** `convertArray` maps element by element: same length, same order, and it throws exactly when an element does. */
  lemma {:induction false} ConvertItemsElementwise(scan: Scanner, items: seq<Json>)
    ensures ConvertItems(scan, items).Ok? <==> forall i :: 0 <= i < |items| ==> ConvertValue(scan, items[i]).Ok?
    ensures ConvertItems(scan, items).Ok? ==>
      |ConvertItems(scan, items).value| == |items|
      && forall i :: 0 <= i < |items| ==> ConvertValue(scan, items[i]) == Ok(ConvertItems(scan, items).value[i])
    decreases |items|
  {
    if items != [] {
      ConvertItemsElementwise(scan, items[1..]);
      assert forall i :: 1 <= i < |items| ==> items[i] == items[1..][i - 1];
    }
  }

  /** `Map.set` of a key not yet present appends it. */
  lemma {:induction false} MapSetNew(props: seq<(string, ValueDescription)>, key: string, vd: ValueDescription)
    requires forall i :: 0 <= i < |props| ==> props[i].0 != key
    ensures MapSet(props, key, vd) == props + [(key, vd)]
  {
    if props != [] {
      MapSetNew(props[1..], key, vd);
    }
  }

  /** From index `k` on, `r` holds each entry's key with its converted value. */
  ghost predicate PropsFrom(scan: Scanner, obj: seq<(string, Json)>, r: seq<(string, ValueDescription)>, k: nat)
    requires |r| == k + |obj|
  {
    forall i :: 0 <= i < |obj| ==> r[k + i].0 == obj[i].0 && ConvertValue(scan, obj[i].1) == Ok(r[k + i].1)
  }

  /** The head's property at `k` and the tail's properties from `k + 1` on are the properties from `k` on. */
  lemma PropsShift(scan: Scanner, obj: seq<(string, Json)>, r: seq<(string, ValueDescription)>, k: nat, k': nat)
    requires obj != [] && |r| == k + |obj| && k' == k + 1
    requires r[k].0 == obj[0].0 && ConvertValue(scan, obj[0].1) == Ok(r[k].1)
    requires PropsFrom(scan, obj[1..], r, k')
    ensures PropsFrom(scan, obj, r, k)
  {
    forall i | 0 < i < |obj|
      ensures r[k + i].0 == obj[i].0 && ConvertValue(scan, obj[i].1) == Ok(r[k + i].1)
    {
      assert obj[i] == obj[1..][i - 1];
      assert k + i == k' + (i - 1);
    }
  }

  /** The loop of `convertSimpleObject` over unique keys appends one converted property per entry, in order. */
  lemma {:induction false} SimpleFoldUnique(scan: Scanner, obj: seq<(string, Json)>, props: seq<(string, ValueDescription)>)
    requires UniqueKeys(obj)
    requires forall i, j :: 0 <= i < |props| && 0 <= j < |obj| ==> props[i].0 != obj[j].0
    ensures SimpleFold(scan, obj, props).Ok? <==> forall i :: 0 <= i < |obj| ==> ConvertValue(scan, obj[i].1).Ok?
    ensures SimpleFold(scan, obj, props).Ok? ==>
      var r := SimpleFold(scan, obj, props).value;
      |r| == |props| + |obj| && r[..|props|] == props && PropsFrom(scan, obj, r, |props|)
    decreases |obj|
  {
    if obj != [] {
      var v := ConvertValue(scan, obj[0].1);
      if v.Ok? {
        MapSetNew(props, obj[0].0, v.value);
        var next := props + [(obj[0].0, v.value)];
        SimpleFoldUnique(scan, obj[1..], next);
        assert forall i :: 1 <= i < |obj| ==> obj[i] == obj[1..][i - 1];
        var f := SimpleFold(scan, obj, props);
        if f.Ok? {
          assert f.value[..|props|] == f.value[..|next|][..|props|];
          assert f.value[|props|] == f.value[..|next|][|props|];
          PropsShift(scan, obj, f.value, |props|, |next|);
        }
      }
    }
  }

  /**
   * A plain object with unique keys keeps every key, in order, each with its
   * value converted; it throws exactly when one of its values does.
   */
  lemma SimpleObjectEntrywise(scan: Scanner, obj: seq<(string, Json)>)
    requires UniqueKeys(obj)
    ensures SimpleObjectOf(scan, obj).Ok? <==> forall i :: 0 <= i < |obj| ==> ConvertValue(scan, obj[i].1).Ok?
    ensures SimpleObjectOf(scan, obj).Ok? ==>
      var props := SimpleObjectOf(scan, obj).value.properties;
      |props| == |obj|
      && forall i :: 0 <= i < |obj| ==> props[i].0 == obj[i].0 && ConvertValue(scan, obj[i].1) == Ok(props[i].1)
  {
    SimpleFoldUnique(scan, obj, []);
  }

  /**
   * `convertValue` by kind: numbers and booleans wrap unchanged, a string
   * stays primitive exactly when it has no placeholders, arrays stay arrays
   * of the same length, and only objects become objects or plural or
   * boolean functions.
   */
  lemma ConvertValueKind(scan: Scanner, v: Json)
    ensures v.JNumber? ==> ConvertValue(scan, v) == Ok(Primitive(PNumber(v.n)))
    ensures v.JBoolean? ==> ConvertValue(scan, v) == Ok(Primitive(PBoolean(v.b)))
    ensures ConvertValue(scan, v).Ok? ==>
      var vd := ConvertValue(scan, v).value;
      (vd.Primitive? <==> v.JNumber? || v.JBoolean? || (v.JString? && |scan(v.s)| == 0))
      && (vd.PlaceholderFunction? <==> v.JString? && |scan(v.s)| > 0)
      && (vd.Array? <==> v.JArray?)
      && (v.JArray? ==> |vd.items| == |v.items|)
      && (vd.Object? || vd.PluralFunction? || vd.BooleanFunction? <==> v.JObject?)
  {
    match v
    case JArray(items) =>
      ConvertItemsElementwise(scan, items);
    case JObject(obj) =>
      ConvertObjectClassification(scan, obj);
    case _ =>
  }
}
