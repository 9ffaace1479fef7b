/**
 * `createParameters`: one typed parameter declaration per argument. `mapType`
 * has no case for `boolean`, so a boolean argument's parameter has no type.
 */
module ParameterCreation {
  import opened Wrappers
  import opened IntermediateStructure
  import opened TypeScriptAst

  /** `mapType`: the keyword for an argument type, `None` (JavaScript's `undefined`) for `boolean`. */
  function MapType(t: ArgType): Option<Keyword> {
    match t
    case StringArg => Some(StringKeyword)
    case NumberArg => Some(NumberKeyword)
    case ObjectArg => Some(ObjectKeyword)
    case BooleanArg => None
  }

  /** The text of a keyword type. */
  function KeywordText(k: Keyword): string {
    match k
    case StringKeyword => "string"
    case NumberKeyword => "number"
    case ObjectKeyword => "object"
  }

  /** `createParameters(args)`. */
  function CreateParameters(args: seq<Arg>): (ps: seq<Parameter>)
    ensures |ps| == |args|
    ensures forall i :: 0 <= i < |args| ==> ps[i].name == args[i].name && ps[i].typeNode == MapType(args[i].argType)
  {
    if args == [] then [] else [Parameter(args[0].name, MapType(args[0].argType))] + CreateParameters(args[1..])
  }

  /**
   * Every argument type but `boolean` gets the keyword spelled like the type
   * itself, so reading the keyword back with `getTypeFrom` gives the type;
   * `boolean` alone gets no type.
   */
  lemma MapTypeSpellsArgType(t: ArgType)
    ensures MapType(t).None? <==> t == BooleanArg
    ensures MapType(t).Some? ==> KeywordText(MapType(t).value) == TypeName(t)
    ensures MapType(t).Some? ==> GetTypeFrom(KeywordText(MapType(t).value)) == t
  {
    GetTypeFromTypeName(t);
  }

  /** The parameters declare exactly the arguments' names. */
  lemma ParameterScope(args: seq<Arg>)
    ensures Scope(CreateParameters(args)) == ArgNameSet(args)
  {
    var ps := CreateParameters(args);
    forall x | x in ArgNameSet(args) ensures x in Scope(ps) {
      var i :| 0 <= i < |args| && args[i].name == x;
      assert ps[i].name == x;
    }
  }
}
