/**
 * The intermediate representation between the decoded JSON tree and the
 * generated TypeScript: one value description per detected shape.
 */
module IntermediateStructure {
  import opened Wrappers
  import opened JsString

  /** The tag every value description carries (`ValueDescriptionType`). */
  datatype ValueDescriptionType =
    | PrimitiveType
    | ObjectType
    | ArrayType
    | PlaceholderFunctionType
    | PluralFunctionType
    | BooleanFunctionType

  /** The declared type of a placeholder argument (`ArgType`). */
  datatype ArgType = StringArg | NumberArg | ObjectArg | BooleanArg

  datatype Arg = Arg(name: string, argType: ArgType)

  /**
   * An element of a string-parts array: literal text, a reference to an
   * argument by name, or the `undefined` the parts builder leaves behind when
   * a placeholder text occurs more than once.
   */
  datatype Part = Text(text: string) | ArgName(name: string) | Undefined

  /** A plural or boolean form: the raw string, or its string parts. */
  datatype Form = Literal(text: string) | Parts(parts: seq<Part>)

  /** A JSON scalar (`PrimitiveJsonType`); numbers are kept opaque as integers. */
  datatype PrimitiveValue = PString(s: string) | PNumber(n: int) | PBoolean(b: bool)

  /** A plural-form key other than `n`: a string of ASCII digits. */
  type DigitString = s: string | IsDigits(s) witness "0"

  /**
   * A value description. A plural function always carries its `n` form and a
   * boolean function both its `true` and `false` forms, as their own fields.
   */
  datatype ValueDescription =
    | Primitive(value: PrimitiveValue)
    | Object(properties: seq<(string, ValueDescription)>)
    | Array(items: seq<ValueDescription>)
    | PlaceholderFunction(args: seq<Arg>, stringParts: seq<Part>)
    | PluralFunction(args: seq<Arg>, nth: Form, counted: seq<(DigitString, Form)>)
    | BooleanFunction(args: seq<Arg>, whenTrue: Form, whenFalse: Form)

  /** The `type` field of a value description. */
  function TypeOf(vd: ValueDescription): ValueDescriptionType {
    match vd
    case Primitive(_) => PrimitiveType
    case Object(_) => ObjectType
    case Array(_) => ArrayType
    case PlaceholderFunction(_, _) => PlaceholderFunctionType
    case PluralFunction(_, _, _) => PluralFunctionType
    case BooleanFunction(_, _, _) => BooleanFunctionType
  }

  /** The string each `ArgType` member stands for. */
  function TypeName(t: ArgType): string {
    match t
    case StringArg => "string"
    case NumberArg => "number"
    case ObjectArg => "object"
    case BooleanArg => "boolean"
  }

  /** The members of `ArgType`, in declaration order. */
  const ArgTypes: seq<ArgType> := [StringArg, NumberArg, ObjectArg, BooleanArg]

  /** The first member of `types` that stands for `token` (the reverse lookup `reverseArgType.get`). */
  function ReverseLookup(types: seq<ArgType>, token: string): (r: Option<ArgType>)
    ensures r.Some? ==> r.value in types && TypeName(r.value) == token
    ensures r.None? ==> forall t :: t in types ==> TypeName(t) != token
  {
    if types == [] then None
    else if TypeName(types[0]) == token then Some(types[0])
    else ReverseLookup(types[1..], token)
  }

  /** `getTypeFrom`: the argument type a placeholder's type token names, `String` for any other token. */
  function GetTypeFrom(token: string): (t: ArgType)
    ensures TypeName(t) == token || t == StringArg
  {
    match ReverseLookup(ArgTypes, token)
    case Some(t) => t
    case None => StringArg
  }

  /** Each of the four type names is read back as its own type. */
  lemma GetTypeFromTypeName(t: ArgType)
    ensures GetTypeFrom(TypeName(t)) == t
  {
    assert t in ArgTypes;
  }

  /** Any token that names no type, such as `""` or `"Number"`, defaults to `String`. */
  lemma GetTypeFromUnknown(token: string)
    requires forall t: ArgType :: TypeName(t) != token
    ensures GetTypeFrom(token) == StringArg
  {
  }

  predicate IsPrimitiveValueDescription(vd: ValueDescription): (b: bool)
    ensures b <==> vd.Primitive?
  {
    TypeOf(vd) == PrimitiveType
  }

  predicate IsPrimitiveStringValueDescription(vd: ValueDescription): (b: bool)
    ensures b <==> vd.Primitive? && vd.value.PString?
    ensures b ==> IsPrimitiveValueDescription(vd)
  {
    TypeOf(vd) == PrimitiveType && vd.value.PString?
  }

  predicate IsObjectValueDescription(vd: ValueDescription): (b: bool)
    ensures b <==> vd.Object?
  {
    TypeOf(vd) == ObjectType
  }

  predicate IsArrayValueDescription(vd: ValueDescription): (b: bool)
    ensures b <==> vd.Array?
  {
    TypeOf(vd) == ArrayType
  }

  predicate IsPlaceholderFunctionValueDescription(vd: ValueDescription): (b: bool)
    ensures b <==> vd.PlaceholderFunction?
  {
    TypeOf(vd) == PlaceholderFunctionType
  }

  predicate IsPluralFunctionValueDescription(vd: ValueDescription): (b: bool)
    ensures b <==> vd.PluralFunction?
  {
    TypeOf(vd) == PluralFunctionType
  }

  predicate IsBooleanFunctionValueDescription(vd: ValueDescription): (b: bool)
    ensures b <==> vd.BooleanFunction?
  {
    TypeOf(vd) == BooleanFunctionType
  }

  /** How many of the six variant guards hold of `vd`. */
  function GuardsHolding(vd: ValueDescription): nat {
    (if IsPrimitiveValueDescription(vd) then 1 else 0)
    + (if IsObjectValueDescription(vd) then 1 else 0)
    + (if IsArrayValueDescription(vd) then 1 else 0)
    + (if IsPlaceholderFunctionValueDescription(vd) then 1 else 0)
    + (if IsPluralFunctionValueDescription(vd) then 1 else 0)
    + (if IsBooleanFunctionValueDescription(vd) then 1 else 0)
  }

  /** The six variant guards are mutually exclusive and jointly exhaustive. */
  lemma GuardsPartition(vd: ValueDescription)
    ensures GuardsHolding(vd) == 1
  {
  }

  // Vocabulary for argument lists and string parts.

  /** No two arguments share a name. */
  ghost predicate DistinctNames(args: seq<Arg>) {
    forall i, j :: 0 <= i < j < |args| ==> args[i].name != args[j].name
  }

  /** The names of the arguments. */
  function ArgNameSet(args: seq<Arg>): set<string> {
    set i | 0 <= i < |args| :: args[i].name
  }

  /** Every name the parts refer to is one of `names`. */
  predicate RefersOnlyTo(parts: seq<Part>, names: set<string>) {
    forall i :: 0 <= i < |parts| && parts[i].ArgName? ==> parts[i].name in names
  }

  /** Every name a form refers to is one of `names`; a raw string refers to none. */
  predicate FormRefersOnlyTo(f: Form, names: set<string>) {
    f.Parts? ==> RefersOnlyTo(f.parts, names)
  }

  /** The names the `ArgName` parts refer to, in order. */
  function ArgNames(parts: seq<Part>): seq<string> {
    if parts == [] then []
    else (if parts[0].ArgName? then [parts[0].name] else []) + ArgNames(parts[1..])
  }

  /** The name of each argument reference is among the parts' names. */
  lemma {:induction false} ArgNameListed(parts: seq<Part>, i: nat)
    requires i < |parts| && parts[i].ArgName?
    ensures parts[i].name in ArgNames(parts)
  {
    if i > 0 {
      ArgNameListed(parts[1..], i - 1);
    }
  }

  /** No literal fragment is empty. */
  ghost predicate NoEmptyText(parts: seq<Part>) {
    forall i :: 0 <= i < |parts| ==> parts[i] != Text("")
  }

  /** No two literal fragments are adjacent. */
  ghost predicate NoAdjacentTexts(parts: seq<Part>) {
    forall i :: 0 <= i < |parts| - 1 ==> !(parts[i].Text? && parts[i + 1].Text?)
  }

  /**
   * The string a parts array stands for once every argument name is replaced
   * by its value under `env`.
   */
  function Render(parts: seq<Part>, env: string -> string): string
    requires Undefined !in parts
  {
    if parts == [] then ""
    else
      (match parts[0]
       case Text(t) => t
       case ArgName(n) => env(n)) + Render(parts[1..], env)
  }

  /** Rendering distributes over concatenation of parts. */
  lemma {:induction false} RenderAppend(a: seq<Part>, b: seq<Part>, env: string -> string)
    requires Undefined !in a && Undefined !in b
    ensures Undefined !in a + b
    ensures Render(a + b, env) == Render(a, env) + Render(b, env)
  {
    if a != [] {
      assert (a + b)[1..] == a[1..] + b;
      RenderAppend(a[1..], b, env);
    } else {
      assert a + b == b;
    }
  }
}
