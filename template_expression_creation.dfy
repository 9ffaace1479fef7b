/**
 * `createTemplate`: string parts become a template expression. The head is
 * the first part when it is text; each argument reference becomes a span
 * whose literal is the text right after it, a tail when the reference is the
 * last or the second-to-last part and a middle otherwise, so parts ending in
 * two references give a template with two tails.
 */
module TemplateExpressionCreation {
  import opened Wrappers
  import opened IntermediateStructure
  import opened TypeScriptAst

  /** The head text: the first part if it is text, else `""`. */
  function TemplateHead(parts: seq<Part>): string {
    if |parts| > 0 && parts[0].Text? then parts[0].text else ""
  }

  /** The text right after index `i`: the next part if it is text, else `""`. */
  function NextText(parts: seq<Part>, i: nat): string {
    if i + 1 < |parts| && parts[i + 1].Text? then parts[i + 1].text else ""
  }

  /**
   * The spans for the parts from index `i` on: text parts give none, an
   * `undefined` part throws when its `name` is read.
   */
  function Spans(parts: seq<Part>, i: nat): (r: Result<seq<TemplateSpan>>)
    requires i <= |parts|
    ensures r.Err? ==> r.error == NameOfUndefined
    decreases |parts| - i
  {
    if i == |parts| then Ok([])
    else
      match parts[i]
      case Text(_) => Spans(parts, i + 1)
      case Undefined => Err(NameOfUndefined)
      case ArgName(name) =>
        var literal :=
          if i == |parts| - 1 || i == |parts| - 2 then TemplateTail(NextText(parts, i))
          else TemplateMiddle(NextText(parts, i));
        var rest :- Spans(parts, i + 1);
        Ok([TemplateSpan(name, literal)] + rest)
  }

  /** `createTemplate(stringParts)`. */
  function CreateTemplate(parts: seq<Part>): (r: Result<Expr>)
    ensures r.Ok? ==> r.value.TemplateExpression? && r.value.head == TemplateHead(parts)
  {
    var spans :- Spans(parts, 0);
    Ok(TemplateExpression(TemplateHead(parts), spans))
  }

  /** The names of the spans, in order. */
  function SpanNames(spans: seq<TemplateSpan>): (ns: seq<string>)
    ensures |ns| == |spans|
    ensures forall k :: 0 <= k < |spans| ==> ns[k] == spans[k].name
  {
    if spans == [] then [] else [spans[0].name] + SpanNames(spans[1..])
  }

  /** The indices, from `i` on, of the argument references. */
  function ArgIndices(parts: seq<Part>, i: nat): (ix: seq<nat>)
    requires i <= |parts|
    ensures forall k :: 0 <= k < |ix| ==> i <= ix[k] < |parts| && parts[ix[k]].ArgName?
    ensures forall k, l :: 0 <= k < l < |ix| ==> ix[k] < ix[l]
    decreases |parts| - i
  {
    if i == |parts| then []
    else if parts[i].ArgName? then [i] + ArgIndices(parts, i + 1)
    else ArgIndices(parts, i + 1)
  }

  /** Every argument reference from `i` on has its index listed. */
  lemma {:induction false} ArgIndicesComplete(parts: seq<Part>, i: nat, j: nat)
    requires i <= j < |parts| && parts[j].ArgName?
    ensures j in ArgIndices(parts, i)
    decreases |parts| - i
  {
    if i < j {
      ArgIndicesComplete(parts, i + 1, j);
    }
  }

  /** Template creation throws exactly when some part is `undefined`. */
  lemma {:induction false} SpansOkIff(parts: seq<Part>, i: nat)
    requires i <= |parts|
    ensures Spans(parts, i).Ok? <==> Undefined !in parts[i..]
    decreases |parts| - i
  {
    if i < |parts| {
      SpansOkIff(parts, i + 1);
      assert parts[i..] == [parts[i]] + parts[i + 1..];
    }
  }

  /**
   * One span per argument reference, in order: the span for the reference at
   * index `j` names it, carries the text right after it, and is a tail exactly
   * when `j` is one of the last two indices.
   */
  lemma {:induction false} SpansShape(parts: seq<Part>, i: nat)
    requires i <= |parts|
    ensures Spans(parts, i).Ok? ==>
      var spans := Spans(parts, i).value;
      var ix := ArgIndices(parts, i);
      |spans| == |ix|
      && forall k :: 0 <= k < |spans| ==>
        spans[k].name == parts[ix[k]].name
        && spans[k].literal.text == NextText(parts, ix[k])
        && (spans[k].literal.TemplateTail? <==> ix[k] + 2 >= |parts|)
    decreases |parts| - i
  {
    if i < |parts| {
      SpansShape(parts, i + 1);
    }
  }

  /** The span names are the names the parts refer to, in order. */
  lemma {:induction false} SpanNamesAreArgNames(parts: seq<Part>, i: nat)
    requires i <= |parts|
    ensures Spans(parts, i).Ok? ==> SpanNames(Spans(parts, i).value) == ArgNames(parts[i..])
    decreases |parts| - i
  {
    if i < |parts| {
      SpanNamesAreArgNames(parts, i + 1);
      assert parts[i..][1..] == parts[i + 1..];
      var r := Spans(parts, i);
      if r.Ok? && parts[i].ArgName? {
        assert SpanNames(r.value)[1..] == SpanNames(r.value[1..]);
      }
    }
  }

  /** The text a part contributes if it is the first part from `i` on: its text, or nothing. */
  function LeadText(parts: seq<Part>, i: nat): string
    requires i <= |parts|
  {
    if i < |parts| && parts[i].Text? then parts[i].text else ""
  }

  /** From index `i` on, the leading text followed by the spans' text renders the parts. */
  lemma {:induction false} SpansRender(parts: seq<Part>, i: nat, show: string -> string)
    requires i <= |parts|
    requires Undefined !in parts && NoAdjacentTexts(parts)
    ensures Spans(parts, i).Ok?
    ensures Undefined !in parts[i..]
    ensures LeadText(parts, i) + SpansText(Spans(parts, i).value, show) == Render(parts[i..], show)
    decreases |parts| - i
  {
    if i == |parts| {
      assert parts[i..] == [];
    } else {
      SpansRender(parts, i + 1, show);
      assert parts[i..][1..] == parts[i + 1..];
      assert parts[i] in parts;
      if parts[i].ArgName? {
        var spans := Spans(parts, i).value;
        assert spans[1..] == Spans(parts, i + 1).value;
        assert NextText(parts, i) == LeadText(parts, i + 1);
      } else {
        assert LeadText(parts, i + 1) == "";
      }
    }
  }

  /** The spans from index `i` on read only names in `scope` exactly when the parts from `i` on refer only to names in it. */
  lemma {:induction false} SpansBoundIff(parts: seq<Part>, i: nat, scope: set<string>)
    requires i <= |parts|
    ensures Spans(parts, i).Ok? ==>
      (SpansBound(Spans(parts, i).value, scope)
       <==> forall j :: i <= j < |parts| && parts[j].ArgName? ==> parts[j].name in scope)
    decreases |parts| - i
  {
    if i < |parts| {
      SpansBoundIff(parts, i + 1, scope);
      var r := Spans(parts, i);
      if r.Ok? && parts[i].ArgName? {
        var rest := Spans(parts, i + 1).value;
        assert r.value[0].name == parts[i].name && r.value[1..] == rest;
        assert SpansBound(r.value, scope) <==> r.value[0].name in scope && SpansBound(rest, scope) by {
          assert forall k :: 1 <= k < |r.value| ==> r.value[k] == rest[k - 1];
        }
      }
    }
  }

  /**
   * Round trip: when no two text parts are adjacent and none is `undefined`
   * (as the string-parts builder guarantees up to a repeated placeholder), the
   * template evaluates to the rendering of the parts if every name it refers
   * to is declared, and throws otherwise.
   */
  lemma CreateTemplateRender(parts: seq<Part>, scope: set<string>, env: string -> Value)
    requires Undefined !in parts && NoAdjacentTexts(parts)
    ensures CreateTemplate(parts).Ok?
    ensures Eval(CreateTemplate(parts).value, scope, env)
      == if RefersOnlyTo(parts, scope) then Some(Str(Render(parts, Shown(env)))) else None
  {
    SpansRender(parts, 0, Shown(env));
    SpansBoundIff(parts, 0, scope);
    assert parts[0..] == parts;
  }

  /** The last two parts are both argument references. */
  predicate EndsInTwoArgNames(parts: seq<Part>) {
    |parts| >= 2 && parts[|parts| - 1].ArgName? && parts[|parts| - 2].ArgName?
  }

  /** The parts at `i` and `i + 1` are not both text. */
  lemma NotTwoTextsAt(parts: seq<Part>, i: nat)
    requires NoAdjacentTexts(parts) && i + 1 < |parts|
    ensures !(parts[i].Text? && parts[i + 1].Text?)
  {
  }

  /** Every part after the last reference is text. */
  lemma TextsAfterLastArg(parts: seq<Part>)
    requires Undefined !in parts
    ensures var ix := ArgIndices(parts, 0);
      |ix| > 0 ==> forall j :: ix[|ix| - 1] < j < |parts| ==> parts[j].Text?
  {
    var ix := ArgIndices(parts, 0);
    if |ix| > 0 {
      forall j | ix[|ix| - 1] < j < |parts|
        ensures parts[j].Text?
      {
        if parts[j].ArgName? {
          ArgIndicesComplete(parts, 0, j);
          assert false;
        }
        assert parts[j] in parts;
      }
    }
  }

  /**
   * Where the last references sit: the last one among the last two parts,
   * the one before it there too exactly when the parts end in two references.
   */
  lemma LastArgIndices(parts: seq<Part>)
    requires Undefined !in parts && NoAdjacentTexts(parts)
    ensures var ix := ArgIndices(parts, 0);
      (|ix| > 0 ==> ix[|ix| - 1] + 2 >= |parts|)
      && (EndsInTwoArgNames(parts) <==> |ix| >= 2 && ix[|ix| - 2] + 2 >= |parts|)
  {
    var ix := ArgIndices(parts, 0);
    var n := |parts|;
    var m := |ix|;
    TextsAfterLastArg(parts);
    if m > 0 && ix[m - 1] + 2 < n {
      NotTwoTextsAt(parts, ix[m - 1] + 1);
      assert false;
    }
    if EndsInTwoArgNames(parts) {
      ArgIndicesComplete(parts, 0, n - 2);
      ArgIndicesComplete(parts, 0, n - 1);
      var k :| 0 <= k < m && ix[k] == n - 2;
      var l :| 0 <= l < m && ix[l] == n - 1;
      assert k < l && l == m - 1;
    }
  }

  /**
   * The template can be printed (one tail, after the last span) exactly when
   * the parts refer to some name and do not end in two references; for
   * `{a}{b}` both spans get a tail and the printed template does not parse.
   */
  lemma TemplatePrintableIff(parts: seq<Part>)
    requires Undefined !in parts && NoAdjacentTexts(parts)
    ensures CreateTemplate(parts).Ok?
    ensures PrintableSpans(CreateTemplate(parts).value.spans) <==> |ArgNames(parts)| > 0 && !EndsInTwoArgNames(parts)
  {
    SpansOkIff(parts, 0);
    assert parts[0..] == parts;
    SpansPrintableIndices(parts);
    LastArgIndices(parts);
  }

  /**
   * One span per reference, and the spans are printable exactly when there
   * is one and the reference before the last is followed by two parts more.
   */
  lemma SpansPrintableIndices(parts: seq<Part>)
    requires Undefined !in parts && NoAdjacentTexts(parts)
    requires Spans(parts, 0).Ok?
    ensures var ix := ArgIndices(parts, 0);
      |ix| == |ArgNames(parts)|
      && (PrintableSpans(Spans(parts, 0).value) <==> |ix| > 0 && !(|ix| >= 2 && ix[|ix| - 2] + 2 >= |parts|))
  {
    var spans := Spans(parts, 0).value;
    var ix := ArgIndices(parts, 0);
    SpansShape(parts, 0);
    assert parts[0..] == parts;
    SpanNamesAreArgNames(parts, 0);
    assert |spans| == |ArgNames(parts)| by {
      assert |SpanNames(spans)| == |spans|;
    }
    LastArgIndices(parts);
    TailIndices(ix, |parts|);
  }

  /**
   * In increasing indices whose last is among the last two of `n`, every
   * index but the last is further from the end exactly when the one before
   * the last is.
   */
  lemma TailIndices(ix: seq<nat>, n: nat)
    requires forall k, l :: 0 <= k < l < |ix| ==> ix[k] < ix[l]
    requires |ix| > 0 ==> ix[|ix| - 1] + 2 >= n
    ensures |ix| > 0 ==>
      ((forall k :: 0 <= k < |ix| - 1 ==> ix[k] + 2 < n) <==> !(|ix| >= 2 && ix[|ix| - 2] + 2 >= n))
  {
    if |ix| >= 2 && ix[|ix| - 2] + 2 < n {
      forall k | 0 <= k < |ix| - 1 ensures ix[k] + 2 < n {
        assert k == |ix| - 2 || ix[k] < ix[|ix| - 2];
      }
    }
  }

  /** Two adjacent text parts lose the second: `["a", "b"]` evaluates to `"a"`, not `"ab"`. */
  lemma AdjacentTextsDropped(scope: set<string>, env: string -> Value)
    ensures CreateTemplate([Text("a"), Text("b")]) == Ok(TemplateExpression("a", []))
    ensures Eval(CreateTemplate([Text("a"), Text("b")]).value, scope, env) == Some(Str("a"))
  {
    var parts := [Text("a"), Text("b")];
    assert Spans(parts, 2) == Ok([]);
    assert Spans(parts, 1) == Ok([]);
    assert Spans(parts, 0) == Ok([]);
    assert SpansText([], Shown(env)) == "";
    assert "a" + "" == "a";
  }

  /**
   * Two trailing argument references both get a tail: `{a}{b}` gives the
   * spans `a` and `b`, each with an empty tail, which cannot be printed.
   */
  lemma TwoTrailingArgNamesBothTails()
    ensures CreateTemplate([ArgName("a"), ArgName("b")])
      == Ok(TemplateExpression("", [TemplateSpan("a", TemplateTail("")), TemplateSpan("b", TemplateTail(""))]))
    ensures !PrintableSpans(CreateTemplate([ArgName("a"), ArgName("b")]).value.spans)
  {
    var parts := [ArgName("a"), ArgName("b")];
    assert Spans(parts, 2) == Ok([]);
    assert NextText(parts, 1) == "";
    assert Spans(parts, 1) == Ok([TemplateSpan("b", TemplateTail(""))] + []);
    assert NextText(parts, 0) == "";
    assert |parts| == 2 && parts[0] == ArgName("a");
    assert Spans(parts, 0).value[1..] == [TemplateSpan("b", TemplateTail(""))];
    assert Spans(parts, 0) == Ok([TemplateSpan("a", TemplateTail(""))] + [TemplateSpan("b", TemplateTail(""))]);
    assert TemplateHead(parts) == "";
    assert [TemplateSpan("a", TemplateTail(""))] + [TemplateSpan("b", TemplateTail(""))]
      == [TemplateSpan("a", TemplateTail("")), TemplateSpan("b", TemplateTail(""))];
    assert CreateTemplate(parts).value.spans[0].literal.TemplateTail?;
  }
}
