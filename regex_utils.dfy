/**
 * The placeholder scanner's output. The scanner itself (`getAllMatches` over
 * `placeholderRegex`) is not part of this model: every operation that needs it
 * takes a `Scanner` as a parameter.
 */
module RegexUtils {

  /** The text of a whole `{name: type}` match; never empty, since it includes its braces. */
  type MatchText = s: string | |s| > 0 witness "{}"

  /**
   * One placeholder match: the whole matched text (`match[0]`), the argument
   * name (`match[1]`) and the type token (`match[2]`, empty when omitted).
   */
  datatype PlaceholderMatch = PlaceholderMatch(fullText: MatchText, name: string, typeToken: string)

  /** All placeholder matches in a string, left to right. */
  type Scanner = string -> seq<PlaceholderMatch>

  /** The whole texts of `ms`, in order. */
  function Texts(ms: seq<PlaceholderMatch>): (ts: seq<string>)
    ensures |ts| == |ms|
    ensures forall i :: 0 <= i < |ms| ==> ts[i] == ms[i].fullText
  {
    if ms == [] then [] else [ms[0].fullText] + Texts(ms[1..])
  }

  /** The argument names of `ms`, in order. */
  function MatchNames(ms: seq<PlaceholderMatch>): (ns: seq<string>)
    ensures |ns| == |ms|
    ensures forall i :: 0 <= i < |ms| ==> ns[i] == ms[i].name
  {
    if ms == [] then [] else [ms[0].name] + MatchNames(ms[1..])
  }
}
