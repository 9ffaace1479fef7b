# i18n-json-to-ts, modelled in Dafny

i18n-json-to-ts compiles a JSON translation resource into TypeScript. Each
entry becomes a literal or a typed accessor function. The compiler has two
halves, joined by an intermediate representation (IR) of *value descriptions*:

- **JSON to IR** (`JsonConversion.ts`). The converter handles each kind of value:
  - A string with `{name}` / `{name: type}` placeholders becomes a
    *placeholder function*. Its arguments are deduplicated by name. Its
    *string parts* are the literal text alternating with references to
    arguments by name.
  - An object with an `n` key whose other keys are all digit strings, and
    whose values are all strings, becomes a *plural function*. Its implicit
    first argument is `count: number`.
  - Otherwise, an object with string-valued `true` and `false` keys becomes a
    *boolean function*. Its implicit first argument is `bool: boolean`.
  - Any other object becomes a plain object. Arrays map element by element.
    Numbers and booleans stay primitive.
- **IR to TypeScript** (`ExpressionCreation.ts`, `TemplateExpressionCreation.ts`,
  `ParameterCreation.ts`). Each value description becomes a TypeScript
  expression:
  - a primitive becomes a literal;
  - an array becomes an array literal and an object an object literal;
  - a placeholder function becomes an arrow function returning a template
    literal;
  - a plural function becomes an arrow function that runs one
    `if (count === k) return …` per counted form, then returns the `n` form;
  - a boolean function becomes an arrow function that returns the `true` form
    when `bool === true` and the `false` form otherwise.

The files model these parts:

- `wrappers.dfy`: `Option` and `Result`. `Result` holds the value or the
  `TypeError` the JavaScript would throw.
- `js_string.dfy`: `String.prototype.split`, `indexOf`, and decimal digit
  strings.
- `intermediate_structure.dfy`: the IR, `getTypeFrom`, the type guards and
  the rendering of string parts.
- `regex_utils.dfy`: the placeholder scanner, which is abstract.
- `arg_sets.dfy`: `createArgSet`, as the class `ArgSet` over a sequence of
  arguments.
- `string_parts_builder.dfy`: `createStringPartsBuilder`, as the class
  `StringPartsBuilder`.
- `json_conversion.dfy`: the JSON-to-IR conversions.
- `typescript_ast.dfy`: the fragment of the TypeScript syntax tree that the
  generator builds, with an evaluator for the generated function bodies.
- `parameter_creation.dfy`, `template_expression_creation.dfy` and
  `expression_creation.dfy`: the IR-to-TypeScript half.
- `pipeline.dfy`: the two halves composed, as `getTypeScriptFromObject` does
  before printing. The root goes through `convertObject` over the root's
  `Object.keys`. A root array is therefore an object keyed by its indices, a
  root string an object keyed by its characters' indices, and a root number
  or boolean the empty object. Values inside the document go through
  `convertValue`.

Operations that change state in the source are modelled as Dafny methods and
classes:

- the argument set and the string-parts builder;
- the loops of `convertStringToPlaceholderFunction`, `convertSimpleObject` and
  `createObject`;
- the `reduce` of the plural and boolean conversions;
- the `push` in `createPluralStatements`.

Each of these is proved equal to a specification function, and the
properties are proved about those functions.

The model keeps the source's quirks:

- the `n` form's placeholders do not become arguments;
- a placeholder text that occurs twice leaves an `undefined` string part, and
  three occurrences throw;
- the boolean-form test ignores extra keys;
- `mapType` has no case for `boolean`, so the `bool` parameter has no type;
- `count` and `bool` are compared with strict equality;
- a boolean primitive becomes a string literal;
- two trailing argument references both get a template tail, so the
  printed template literal does not parse (`TemplatePrintableIff`);
- the root is converted as an object even when it is an array or a string.

A boolean function's implicit argument is `bool` of type `boolean`
(`src/JsonToIntermediate/JsonConversion.ts:84`). `mapType` returns
`undefined` for `ArgType.Boolean`, so the generated parameter gets a keyword
type node of undefined kind, modelled as `None`.
`ParameterCreation.MapType` returns `None` there, and
`Pipeline.BooleanParameterUntyped` states the result.

The generated functions are given a meaning by an evaluator
(`TypeScriptAst.Eval`, `Exec` and `Call`). Inside a generated arrow function
only its parameters are declared. Reading any other identifier is a
`ReferenceError`, which the evaluator returns as `None`. So the `n` form of a
plural function, whose placeholders never become parameters, throws when it
refers to a name (`Pipeline.PluralExampleCall`).

## Model

| member | source | states |
|---|---|---|
| IntermediateStructure.GetTypeFrom | src/Intermediate/IntermediateStructure.ts:80-86 | the type returned is named by the token, or is `string` |
| IntermediateStructure.GetTypeFromTypeName | src/Intermediate/IntermediateStructure.ts:80-86 | each of the four type names is read back as its own type |
| IntermediateStructure.GetTypeFromUnknown | src/Intermediate/IntermediateStructure.ts:85 | a token that names no type gives `string` |
| IntermediateStructure.IsPrimitiveValueDescription | src/Intermediate/IntermediateStructure.ts:88-92 | holds exactly for primitives |
| IntermediateStructure.IsPrimitiveStringValueDescription | src/Intermediate/IntermediateStructure.ts:94-101 | holds exactly for primitive strings, and implies the primitive guard |
| IntermediateStructure.IsObjectValueDescription | src/Intermediate/IntermediateStructure.ts:103-107 | holds exactly for objects |
| IntermediateStructure.IsPlaceholderFunctionValueDescription | src/Intermediate/IntermediateStructure.ts:109-113 | holds exactly for placeholder functions |
| IntermediateStructure.IsArrayValueDescription | src/Intermediate/IntermediateStructure.ts:115-117 | holds exactly for arrays |
| IntermediateStructure.IsPluralFunctionValueDescription | src/Intermediate/IntermediateStructure.ts:119-123 | holds exactly for plural functions |
| IntermediateStructure.IsBooleanFunctionValueDescription | src/Intermediate/IntermediateStructure.ts:125-129 | holds exactly for boolean functions |
| IntermediateStructure.GuardsPartition | src/Intermediate/IntermediateStructure.ts:88-129 | exactly one of the six kind guards holds for any value description |
| IntermediateStructure.RenderAppend | src/Intermediate/IntermediateStructure.ts:49-50 | rendering string parts distributes over concatenation |
| JsString.Split | src/JsonToIntermediate/JsonConversion.ts:241 | `split` on a non-empty separator always gives at least one piece |
| JsString.SplitPiecesFree | src/JsonToIntermediate/JsonConversion.ts:241 | no piece of a split contains the separator |
| JsString.JoinSplit | src/JsonToIntermediate/JsonConversion.ts:241 | joining the pieces of a split with the separator gives back the string |
| JsString.SplitAtSoleOccurrence | src/JsonToIntermediate/JsonConversion.ts:241-242 | a separator that occurs once splits into exactly the text before it and the text after it |
| JsString.SplitAtStart | src/JsonToIntermediate/JsonConversion.ts:241 | a string that starts with the separator splits into an empty piece followed by the pieces of the rest |
| JsString.DecimalValueOfDigits | src/IntermediateToTypeScript/ExpressionCreation.ts:139 | `parseInt` of the decimal digits of `n` is `n` |
| ArgSets.AddArgsFirstOccurrences | src/JsonToIntermediate/JsonConversion.ts:222-231 | adding arguments one by one keeps the first argument of each name, in order of first appearance |
| ArgSets.FirstOccurrencesDistinct | src/JsonToIntermediate/JsonConversion.ts:223-227 | the argument set never holds two arguments with the same name |
| ArgSets.FirstOccurrencesLength | src/JsonToIntermediate/JsonConversion.ts:222-228 | the set holds no more arguments than were added |
| ArgSets.HasIffSeen | src/JsonToIntermediate/JsonConversion.ts:223 | a name is in the set exactly when some added argument had it |
| ArgSets.AddArgsNames | src/JsonToIntermediate/JsonConversion.ts:222-228 | the names held after adding are the names held before plus the added arguments' names, and no other |
| ArgSets.AddArgsKeepsPrefix | src/JsonToIntermediate/JsonConversion.ts:222-228 | adding never removes or reorders the arguments already held |
| ArgSets.SetAllDistinct | src/JsonToIntermediate/JsonConversion.ts:219 | the initial `Map` over the initial arguments holds distinct names |
| ArgSets.ArgSet.constructor | src/JsonToIntermediate/JsonConversion.ts:218-219 | the set starts as the `Map` built from the initial arguments, with distinct names |
| ArgSets.ArgSet.Add | src/JsonToIntermediate/JsonConversion.ts:222-228 | `add` leaves the set unchanged if the name is known, else appends the argument; names stay distinct |
| StringPartsBuilders.StringPartsBuilder.constructor | src/JsonToIntermediate/JsonConversion.ts:235-237 | the builder starts with no parts and the whole string unprocessed |
| StringPartsBuilders.StringPartsBuilder.Add | src/JsonToIntermediate/JsonConversion.ts:240-249 | `add` splits the rest at the match, pushes the non-empty text before it and the name, and keeps the second piece; it throws when the rest is `undefined` |
| StringPartsBuilders.StringPartsBuilder.GetStringPart | src/JsonToIntermediate/JsonConversion.ts:250-256 | the getter pushes the rest unless it is empty (so `undefined` is pushed) and returns the parts |
| StringPartsBuilders.BuildPartsShape | src/JsonToIntermediate/JsonConversion.ts:235-258 | built parts hold no empty text and no two adjacent texts, `undefined` only last, and refer to the matches' names in order |
| StringPartsBuilders.BuildPartsOfSoleOccurrences | src/JsonToIntermediate/JsonConversion.ts:180-193 | when each placeholder text occurs once, the parts are the literal texts interleaved with the names |
| StringPartsBuilders.RenderSegments | src/JsonToIntermediate/JsonConversion.ts:244-252 | rendering those parts substitutes each name's value between the literal texts |
| StringPartsBuilders.BuildPartsRenderRoundTrip | src/JsonToIntermediate/JsonConversion.ts:235-258 | round trip: with each name bound to its placeholder text, the parts render back to the string |
| StringPartsBuilders.RepeatedPlaceholderLeavesUndefined | src/JsonToIntermediate/JsonConversion.ts:241-252 | any placeholder text not starting with a space, written twice with a space between (as `"{a} {a}"`), gives the parts `a`, `" "`, `a`, `undefined`: the first split consumes both occurrences and the second finds none |
| StringPartsBuilders.ThriceRepeatedPlaceholderThrows | src/JsonToIntermediate/JsonConversion.ts:241 | any placeholder text written three times in a row (as `"{a}{a}{a}"`) throws on the third `add`, which splits an `undefined` remainder |
| JsonConversion.ConvertString | src/JsonToIntermediate/JsonConversion.ts:165-171 | no placeholder gives the primitive string; otherwise a placeholder function |
| JsonConversion.ConvertStringToPlaceholderFunction | src/JsonToIntermediate/JsonConversion.ts:173-195 | the loop over the matches returns the placeholder function of the value and the matches |
| JsonConversion.PlaceholderFunctionArgs | src/JsonToIntermediate/JsonConversion.ts:180-193 | arguments are the matches' arguments deduplicated by first occurrence; parts refer to the matches' names in order, with no empty or adjacent texts |
| JsonConversion.ConvertStringRoundTrip | src/JsonToIntermediate/JsonConversion.ts:165-195 | when each placeholder text occurs once, the parts render back to the string with each name bound to its placeholder text |
| JsonConversion.PlaceholderFunctionBound | src/JsonToIntermediate/JsonConversion.ts:173-195 | every name a placeholder function's parts refer to is one of its arguments |
| JsonConversion.ConvertStringBound | src/JsonToIntermediate/JsonConversion.ts:165-195 | a converted string's form refers only to the arguments it contributes |
| JsonConversion.PluralFormObjectIff | src/JsonToIntermediate/JsonConversion.ts:197-204 | plural-form object iff `n` is present and every key is `n` or digits with a string value |
| JsonConversion.GetSomeIffKey | src/JsonToIntermediate/JsonConversion.ts:199 | `obj[key] !== undefined` iff the key is one of the object's keys |
| JsonConversion.PluralAndBooleanFormsExclusive | src/JsonToIntermediate/JsonConversion.ts:29-37 | no object is both plural-form and boolean-form |
| JsonConversion.ConvertObjectClassification | src/JsonToIntermediate/JsonConversion.ts:29-37 | plural function iff plural-form, boolean function iff boolean-form, plain object otherwise |
| JsonConversion.ConvertPluralFormObject | src/JsonToIntermediate/JsonConversion.ts:39-73 | the `reduce` over the digit keys with an argument set seeded by `count` returns the plural function of the object, whose forms `PluralFunctionForms` gives |
| JsonConversion.PluralFunctionOf | src/JsonToIntermediate/JsonConversion.ts:39-81 | a successful result is a plural function |
| JsonConversion.PluralFunctionForms | src/JsonToIntermediate/JsonConversion.ts:39-81 | for unique keys: built exactly when the `n` string and every other string convert; the `n` form is the `n` string's form, and the counted forms are the other keys in order, each with its own string's form (the raw text without placeholders, else its string parts) |
| JsonConversion.PluralFoldConverts | src/JsonToIntermediate/JsonConversion.ts:42-61 | the `reduce` over keys other than `n` succeeds exactly when every string converts |
| JsonConversion.PluralFoldForms | src/JsonToIntermediate/JsonConversion.ts:42-61 | over unique keys other than `n` and new to the forms so far, a successful `reduce` appends each key with its string's form, in order |
| JsonConversion.PluralFunctionBound | src/JsonToIntermediate/JsonConversion.ts:39-73 | `count` is a parameter of a plural function, and every counted form refers only to its parameters |
| JsonConversion.PluralFunctionArgs | src/JsonToIntermediate/JsonConversion.ts:40-70 | `count: number` first, then the counted forms' arguments deduplicated by first occurrence; names distinct |
| JsonConversion.PluralFoldIgnoresNth | src/JsonToIntermediate/JsonConversion.ts:42-43 | the fold is the same with the `n` entry removed |
| JsonConversion.PluralArgsIgnoreNthForm | src/JsonToIntermediate/JsonConversion.ts:75-81 | the `n` form's text changes neither the arguments nor the counted forms |
| JsonConversion.PluralArgsOnlyCount | src/JsonToIntermediate/JsonConversion.ts:40-70 | with no placeholders in counted forms, the only argument is `count` |
| JsonConversion.PluralNthPlaceholderNotAParameter | src/JsonToIntermediate/JsonConversion.ts:75-81 | `{"1": "one", "n": "{x}"}` has only `count` as argument while its `n` form refers to `x` |
| JsonConversion.ConvertBooleanFormObject | src/JsonToIntermediate/JsonConversion.ts:83-111 | the `reduce` over `true` and `false` returns the boolean function of the object |
| JsonConversion.BooleanFunctionArgs | src/JsonToIntermediate/JsonConversion.ts:83-111 | forms are the converted `true` and `false` strings; `bool` first, then their arguments deduplicated; names distinct |
| JsonConversion.BooleanFormIgnoresOtherKeys | src/JsonToIntermediate/JsonConversion.ts:206-216 | two boolean-form objects with the same `true` and `false` texts convert alike, whatever other keys they have |
| JsonConversion.BooleanFormWithExtraKey | src/JsonToIntermediate/JsonConversion.ts:206-216 | an extra key beside `true` and `false` is dropped |
| JsonConversion.ConvertSimpleObject | src/JsonToIntermediate/JsonConversion.ts:113-128 | the loop setting each converted value under its key returns the plain object of the entries |
| JsonConversion.SimpleObjectEntrywise | src/JsonToIntermediate/JsonConversion.ts:113-128 | a plain object keeps every key in order with its value converted, and throws exactly when a value does |
| JsonConversion.ConvertItemsElementwise | src/JsonToIntermediate/JsonConversion.ts:130-137 | arrays convert element by element, same length and order |
| JsonConversion.ConvertValueKind | src/JsonToIntermediate/JsonConversion.ts:139-163 | numbers and booleans wrap unchanged, strings by placeholders, arrays stay arrays, only objects become objects or functions |
| JsonConversion.AddEach | src/JsonToIntermediate/JsonConversion.ts:55-57 | adding each argument of a form to the set is `AddArgs` |
| ParameterCreation.CreateParameters | src/IntermediateToTypeScript/ParameterCreation.ts:4-10 | one parameter per argument, same name, type from `mapType` |
| ParameterCreation.ParameterScope | src/IntermediateToTypeScript/ParameterCreation.ts:4-10 | the parameters declare exactly the arguments' names |
| ParameterCreation.MapTypeSpellsArgType | src/IntermediateToTypeScript/ParameterCreation.ts:12-21 | no type exactly for `boolean`; every other keyword is spelled as its type and reads back to it |
| TemplateExpressionCreation.CreateTemplate | src/IntermediateToTypeScript/TemplateExpressionCreation.ts:4-33 | the head is the first part if it is text, else empty |
| TemplateExpressionCreation.SpansOkIff | src/IntermediateToTypeScript/TemplateExpressionCreation.ts:8-30 | template creation throws exactly when a part is `undefined` |
| TemplateExpressionCreation.SpansShape | src/IntermediateToTypeScript/TemplateExpressionCreation.ts:8-30 | one span per argument reference, in order, carrying the text right after it, a tail exactly at the last two indices |
| TemplateExpressionCreation.SpanNamesAreArgNames | src/IntermediateToTypeScript/TemplateExpressionCreation.ts:28 | the span names are the parts' argument names in order |
| TemplateExpressionCreation.SpansBoundIff | src/IntermediateToTypeScript/TemplateExpressionCreation.ts:8-30 | the spans read only declared names exactly when the parts refer only to declared names |
| TemplateExpressionCreation.SpansRender | src/IntermediateToTypeScript/TemplateExpressionCreation.ts:8-30 | from any index, the leading text and the spans' text render the remaining parts |
| TemplateExpressionCreation.CreateTemplateRender | src/IntermediateToTypeScript/TemplateExpressionCreation.ts:4-33 | without adjacent texts or `undefined`, the template evaluates to the rendered parts when every name it reads is declared, and throws otherwise |
| TemplateExpressionCreation.AdjacentTextsDropped | src/IntermediateToTypeScript/TemplateExpressionCreation.ts:14-20 | two adjacent texts lose the second |
| TemplateExpressionCreation.TwoTrailingArgNamesBothTails | src/IntermediateToTypeScript/TemplateExpressionCreation.ts:22-26 | `{a}{b}` gives two template tails |
| TemplateExpressionCreation.TemplatePrintableIff | src/IntermediateToTypeScript/TemplateExpressionCreation.ts:21-26 | the spans can be printed (every span a middle but the last, a tail) exactly when the parts refer to some name and do not end in two references |
| ExpressionCreation.CreateExpression | src/IntermediateToTypeScript/ExpressionCreation.ts:26-52 | it throws only a TypeError from reading the name of `undefined` |
| ExpressionCreation.CreateExpressionShape | src/IntermediateToTypeScript/ExpressionCreation.ts:26-108 | per kind: literal, element-wise array, entry-wise object with identifier or string keys, arrow functions over the arguments' parameters; throws exactly on an `undefined` part |
| ExpressionCreation.CreateItemsElementwise | src/IntermediateToTypeScript/ExpressionCreation.ts:62-68 | arrays convert element by element, same length and order |
| ExpressionCreation.ObjectFoldEntrywise | src/IntermediateToTypeScript/ExpressionCreation.ts:70-80 | every entry is pushed in order with its key's property name and converted value |
| ExpressionCreation.CreateObject | src/IntermediateToTypeScript/ExpressionCreation.ts:70-80 | the loop pushing property assignments returns the object expression of the description |
| ExpressionCreation.CreatePluralStatements | src/IntermediateToTypeScript/ExpressionCreation.ts:110-126 | the `if` blocks with the `n` return pushed last are the plural statements |
| ExpressionCreation.PluralStatements | src/IntermediateToTypeScript/ExpressionCreation.ts:110-126 | one statement per counted form plus one |
| ExpressionCreation.FormExprOkIff | src/IntermediateToTypeScript/ExpressionCreation.ts:147-151 | a form's return is built exactly when it has no `undefined` part |
| ExpressionCreation.PluralIfBlocksOkIff | src/IntermediateToTypeScript/ExpressionCreation.ts:113-119 | the `if` blocks are built exactly when every counted form is |
| ExpressionCreation.FormExprEval | src/IntermediateToTypeScript/ExpressionCreation.ts:147-151 | a form's expression evaluates to the form's string, or throws when it reads an undeclared name |
| ExpressionCreation.SelectedForm | src/IntermediateToTypeScript/ExpressionCreation.ts:135-145 | when no counted key's number equals `count` the `n` form is selected; otherwise the first counted form whose key's number equals it |
| ExpressionCreation.PluralIfBlockStep | src/IntermediateToTypeScript/ExpressionCreation.ts:135-145 | an `if (count === k)` block returns its form's string when `count` is `k`'s number and runs on otherwise; it throws when `count` or a name of the form is undeclared |
| ExpressionCreation.PluralStatementsSelect | src/IntermediateToTypeScript/ExpressionCreation.ts:110-151 | running the statements returns the selected form's string; it throws when that form reads an undeclared name, or when there is an `if` and `count` is undeclared |
| ExpressionCreation.PluralFunctionCall | src/IntermediateToTypeScript/ExpressionCreation.ts:90-98 | a plural function's arrow function has the arguments' parameters and returns the selected form's string when `count` is a parameter and the form refers only to parameters; otherwise it throws |
| ExpressionCreation.BooleanFunctionCall | src/IntermediateToTypeScript/ExpressionCreation.ts:100-108 | it returns the `true` form when `bool === true`, else the `false` form; it throws when `bool` is not a parameter or the form reads a name that is not one |
| ExpressionCreation.PlaceholderFunctionCall | src/IntermediateToTypeScript/ExpressionCreation.ts:82-88 | it returns the parts with each name replaced by its parameter's value, and throws when a name is not a parameter; the template is printable exactly when the parts refer to a name and do not end in two references |
| ExpressionCreation.BooleanPrimitiveBecomesString | src/IntermediateToTypeScript/ExpressionCreation.ts:54-60 | a boolean primitive evaluates to a string, not a boolean |
| ExpressionCreation.PropertyNameExamples | src/IntermediateToTypeScript/ExpressionCreation.ts:24 | keys matching `^(?!\d)[\w$]+$` stay identifiers, others become string literals |
| Pipeline.Generate | src/index.ts:9-11 | the root's entries go through `convertObject`, then `createExpression`; a failure comes from one of the two |
| Pipeline.Translate | src/JsonToIntermediate/JsonConversion.ts:139-163 | a value inside the document goes through `convertValue`, then `createExpression`; a failure comes from one of the two |
| Pipeline.RootKind | src/index.ts:9-11 | the root becomes an object literal exactly when its entries form neither a plural-form nor a boolean-form object, and an arrow function otherwise |
| Pipeline.RootArrayPlain | src/JsonToIntermediate/JsonConversion.ts:29-37 | a root array's index keys are never plural or boolean forms, so it converts as a plain object |
| Pipeline.RootArrayIsIndexedObject | src/index.ts:9-11 | a root array becomes an object literal with one string-literal key `"i"` per item, in order, holding the item's expression; it fails exactly when an item does |
| Pipeline.RootArrayExample | src/index.ts:9-11 | `[1, 2]` gives `{ "0": 1, "1": 2 }` |
| Pipeline.RootStringIsCharacterObject | src/index.ts:9-11 | a root string becomes an object literal keyed by its character indices, each holding that one-character string's expression; without placeholders, each is its own string literal |
| Pipeline.RootScalarIsEmptyObject | src/index.ts:9-11 | a root number or boolean has no keys and gives the empty object literal |
| Pipeline.PlainStringIsLiteral | src/JsonToIntermediate/JsonConversion.ts:165-171 | a string without placeholders inside the document becomes its own string literal |
| Pipeline.SoleOccurrencesConvert | src/JsonToIntermediate/JsonConversion.ts:173-195 | a string whose placeholder texts each occur once becomes a placeholder function: its parts interleave the literal texts with the names, and its arguments are the first occurrences, distinct and covering every name |
| Pipeline.PlaceholderStringSubstitutes | src/IntermediateToTypeScript/ExpressionCreation.ts:82-88 | such a string becomes an arrow function with distinct parameters that returns the string with each placeholder replaced by its value |
| Pipeline.PlaceholderStringPrintable | src/IntermediateToTypeScript/TemplateExpressionCreation.ts:21-26 | its template is printable exactly when the string does not end in two placeholders with nothing between or after them |
| Pipeline.SegmentsEnd | src/JsonToIntermediate/JsonConversion.ts:240-256 | interleaved parts hold one reference per name and end in two references exactly when the last two literal texts are empty |
| Pipeline.PluralFirstArg | src/JsonToIntermediate/JsonConversion.ts:40-64 | a plural function's first argument is `count: number` |
| Pipeline.PluralCountParameter | src/IntermediateToTypeScript/ExpressionCreation.ts:90-98 | a generated plural function's first parameter is `count: number` |
| Pipeline.PluralObjectForms | src/JsonToIntermediate/JsonConversion.ts:39-81 | a plural-form object with unique keys that generates has the `n` string's form and each other key with its own string's form, in order, all renderable |
| Pipeline.PluralObjectCall | src/IntermediateToTypeScript/ExpressionCreation.ts:90-145 | the generated function returns, when `count` equals a counted key's number, the first such key's form as a string; for any other `count` it returns the `n` form's string, or throws when the `n` form reads a name that is not a parameter |
| Pipeline.BooleanFirstArg | src/JsonToIntermediate/JsonConversion.ts:83-111 | a boolean function's first argument is `bool` |
| Pipeline.BooleanParameterUntyped | src/IntermediateToTypeScript/ParameterCreation.ts:4-21 | a generated boolean function's first parameter is `bool`, with a keyword type node of undefined kind, modelled as `None` |
| Pipeline.PluralExampleCall | src/IntermediateToTypeScript/ExpressionCreation.ts:135-145 | `{"1": "one", "n": "{x}"}` returns `"one"` for `count === 1` and otherwise throws, because `x` is not declared |
| Pipeline.BooleanExampleCall | src/IntermediateToTypeScript/ExpressionCreation.ts:153-164 | `{"true": "yes", "false": "no", "note": 1}` returns `"yes"` only for `bool === true` |

## Left out

- Printing the AST and `index.ts`'s source-file and printer plumbing are not modelled. `Pipeline.Generate` stops at the expression tree.
- The TypeScript `factory` API is not modelled. The generated code is an abstract syntax tree (`TypeScriptAst`), whose evaluator covers only what the generated function bodies run. The evaluator reads a template's spans without regard to whether a literal is a middle or a tail. When two tails are generated, the printed template literal does not parse. `PrintableSpans` states what printing needs, and `TemplateExpressionCreation.TemplatePrintableIff` states when it holds.
- The placeholder regular expression and `RegexUtils.getAllMatches` are left out. The scanner is a parameter: any function from a string to its matches, each with a non-empty match text.
- JSON `null` is left out, because it takes the object branch and the source does not handle it. A `null` value, at the root or nested, makes `isPluralFormObject` throw a TypeError when it reads `n` of `null`.
- The evaluator's values are integers, booleans and strings (`TypeScriptAst.Value`). An argument typed `object`, which a template shows as `[object Object]`, and an omitted argument (`undefined`) are not modelled.
- A root string's keys are its UTF-16 code unit indices. The model's characters are code points, so a root string outside the Basic Multilingual Plane is keyed differently.
- JSON numbers are integers in the model. Floating point and `Show` of non-integral numbers are left out.
- `Object.keys` orders integer-like keys ascending before the other keys. The model keeps keys in the order given.
- JSON objects are taken to have unique keys, as `JSON.parse` produces.
- The final `createStringLiteral("")` of `createExpression` is modelled, but it is never reached (`IntermediateStructure.GuardsPartition`).
- `JsonStructure.ts`'s constants are inlined as `PluralFormNthKey`, `BooleanFormTrueKey` and `BooleanFormFalseKey`.
- The stringParts getter of `createStringPartsBuilder` pushes on every read. The model reads it once, as `convertStringToPlaceholderFunction` does.
