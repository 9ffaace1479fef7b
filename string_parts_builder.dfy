/**
 * `createStringPartsBuilder`: cuts a translation string into literal text and
 * argument references, one placeholder match at a time, by splitting the
 * not yet processed remainder at the match's text.
 *
 * JavaScript's `split` returns a single piece when the separator is absent,
 * and `splitValue[1]` is then `undefined`; from that point the remainder is
 * `undefined` (`None` here): a further `add` throws a TypeError and the
 * getter appends `undefined` to the parts.
 */
module StringPartsBuilders {
  import opened Wrappers
  import opened JsString
  import opened IntermediateStructure
  import opened RegexUtils

  /** The builder's two variables: the parts so far and the unprocessed remainder. */
  datatype BuilderState = BuilderState(stringPart: seq<Part>, unprocessed: Option<string>)

  /** The state `createStringPartsBuilder(value)` starts in. */
  function Initial(value: string): BuilderState {
    BuilderState([], Some(value))
  }

  /** A literal fragment, omitted when empty. */
  function NonEmptyText(t: string): (r: seq<Part>)
    ensures t == "" ==> r == []
    ensures t != "" ==> r == [Text(t)]
  {
    if t == "" then [] else [Text(t)]
  }

  /** `add(arg, argStringMatch)`. */
  function AddPart(st: BuilderState, name: string, argStringMatch: MatchText): Result<BuilderState> {
    match st.unprocessed
    case None => Err(SplitOfUndefined)
    case Some(rest) =>
      var splitValue := Split(rest, argStringMatch);
      var unprocessed := if |splitValue| > 1 then Some(splitValue[1]) else None;
      Ok(BuilderState(st.stringPart + NonEmptyText(splitValue[0]) + [ArgName(name)], unprocessed))
  }

  /** The `stringPart` getter: the remainder, unless empty, is appended (even when it is `undefined`). */
  function Finish(st: BuilderState): seq<Part> {
    match st.unprocessed
    case None => st.stringPart + [Undefined]
    case Some(rest) => st.stringPart + NonEmptyText(rest)
  }

  /** `add` for each match in turn, stopping at the first TypeError. */
  function AddAll(st: BuilderState, ms: seq<PlaceholderMatch>): Result<BuilderState>
    decreases |ms|
  {
    if ms == [] then Ok(st)
    else
      match AddPart(st, ms[0].name, ms[0].fullText)
      case Err(e) => Err(e)
      case Ok(next) => AddAll(next, ms[1..])
  }

  /** The adds for `ms` followed by one read of the getter. */
  function Complete(st: BuilderState, ms: seq<PlaceholderMatch>): Result<seq<Part>> {
    match AddAll(st, ms)
    case Err(e) => Err(e)
    case Ok(final) => Ok(Finish(final))
  }

  /** The string parts built for `value` and its placeholder matches. */
  function BuildParts(value: string, ms: seq<PlaceholderMatch>): Result<seq<Part>> {
    Complete(Initial(value), ms)
  }

  // The shape every built parts array has.

  /** Parts so far: no empty or `undefined` element, and an argument last (or nothing yet). */
  ghost predicate Shaped(parts: seq<Part>) {
    NoEmptyText(parts) && NoAdjacentTexts(parts) && Undefined !in parts
    && (parts != [] ==> parts[|parts| - 1].ArgName?)
  }

  /** Literal text followed by an argument extends a shaped prefix and its argument names. */
  lemma AppendSegment(parts: seq<Part>, t: string, name: string)
    requires Shaped(parts)
    ensures Shaped(parts + NonEmptyText(t) + [ArgName(name)])
    ensures ArgNames(parts + NonEmptyText(t) + [ArgName(name)]) == ArgNames(parts) + [name]
  {
    var seg := NonEmptyText(t) + [ArgName(name)];
    assert parts + NonEmptyText(t) + [ArgName(name)] == parts + seg;
    assert Shaped(seg);
    ShapedAppend(parts, seg);
    ArgNamesAppend(parts, seg);
    ArgNamesAppend(NonEmptyText(t), [ArgName(name)]);
    assert ArgNames([ArgName(name)]) == [name];
  }

  /** Two shaped parts arrays concatenate to a shaped one. */
  lemma ShapedAppend(a: seq<Part>, b: seq<Part>)
    requires Shaped(a) && Shaped(b)
    ensures Shaped(a + b)
  {
    var r := a + b;
    forall i | 0 <= i < |r|
      ensures r[i] != Text("") && r[i] != Undefined
    {
      if i < |a| {
        assert r[i] == a[i];
      } else {
        assert r[i] == b[i - |a|];
      }
    }
    forall i | 0 <= i < |r| - 1
      ensures !(r[i].Text? && r[i + 1].Text?)
    {
      if i + 1 < |a| {
        assert r[i] == a[i] && r[i + 1] == a[i + 1];
      } else if i + 1 == |a| {
        assert r[i] == a[i];
      } else {
        assert r[i] == b[i - |a|] && r[i + 1] == b[i + 1 - |a|];
      }
    }
    if b == [] {
      assert r == a;
    } else {
      assert r[|r| - 1] == b[|b| - 1];
    }
  }

  /** `ArgNames` distributes over concatenation. */
  lemma {:induction false} ArgNamesAppend(a: seq<Part>, b: seq<Part>)
    ensures ArgNames(a + b) == ArgNames(a) + ArgNames(b)
  {
    if a == [] {
      assert a + b == b;
    } else {
      assert (a + b)[1..] == a[1..] + b;
      ArgNamesAppend(a[1..], b);
    }
  }

  /** One `add` keeps the parts shaped and appends exactly the match's argument name. */
  lemma AddPartShape(st: BuilderState, name: string, argStringMatch: MatchText)
    requires Shaped(st.stringPart)
    ensures AddPart(st, name, argStringMatch).Ok? ==>
      Shaped(AddPart(st, name, argStringMatch).value.stringPart)
      && ArgNames(AddPart(st, name, argStringMatch).value.stringPart) == ArgNames(st.stringPart) + [name]
  {
    if st.unprocessed.Some? {
      var splitValue := Split(st.unprocessed.value, argStringMatch);
      AppendSegment(st.stringPart, splitValue[0], name);
    }
  }

  /** The adds keep the parts shaped and append the matches' names in order. */
  lemma {:induction false} AddAllShape(st: BuilderState, ms: seq<PlaceholderMatch>)
    requires Shaped(st.stringPart)
    ensures AddAll(st, ms).Ok? ==>
      Shaped(AddAll(st, ms).value.stringPart)
      && ArgNames(AddAll(st, ms).value.stringPart) == ArgNames(st.stringPart) + MatchNames(ms)
    decreases |ms|
  {
    if ms != [] {
      AddPartShape(st, ms[0].name, ms[0].fullText);
      var r := AddPart(st, ms[0].name, ms[0].fullText);
      if r.Ok? {
        AddAllShape(r.value, ms[1..]);
        assert MatchNames(ms) == [ms[0].name] + MatchNames(ms[1..]);
      }
    }
  }

  /** The getter's result from shaped parts: no empty or adjacent texts, `undefined` at most last, the same names. */
  lemma FinishShape(st: BuilderState)
    requires Shaped(st.stringPart)
    ensures var parts := Finish(st);
      NoEmptyText(parts) && NoAdjacentTexts(parts)
      && (forall i :: 0 <= i < |parts| - 1 ==> parts[i] != Undefined)
      && ArgNames(parts) == ArgNames(st.stringPart)
  {
    var p := st.stringPart;
    var tail := if st.unprocessed.None? then [Undefined] else NonEmptyText(st.unprocessed.value);
    var r := p + tail;
    assert Finish(st) == r;
    ArgNamesAppend(p, tail);
    assert ArgNames(tail) == [];
    assert ArgNames(p) + [] == ArgNames(p);
    forall i | 0 <= i < |r|
      ensures r[i] != Text("")
    {
      if i < |p| {
        assert r[i] == p[i];
      }
    }
    forall i | 0 <= i < |r| - 1
      ensures !(r[i].Text? && r[i + 1].Text?) && r[i] != Undefined
    {
      assert r[i] == p[i];
      if i + 1 < |p| {
        assert r[i + 1] == p[i + 1];
      }
    }
  }

  /**
   * Every parts array the builder produces: no empty literal, no two literals
   * side by side, `undefined` at most as the last element, and the argument
   * references are the matches' names, one per match, in order.
   */
  lemma BuildPartsShape(value: string, ms: seq<PlaceholderMatch>)
    ensures BuildParts(value, ms).Ok? ==>
      var parts := BuildParts(value, ms).value;
      NoEmptyText(parts) && NoAdjacentTexts(parts)
      && (forall i :: 0 <= i < |parts| - 1 ==> parts[i] != Undefined)
      && ArgNames(parts) == MatchNames(ms)
  {
    AddAllShape(Initial(value), ms);
    var r := AddAll(Initial(value), ms);
    if r.Ok? {
      FinishShape(r.value);
      assert ArgNames([]) == [];
    }
  }

  // What the builder produces for a string whose placeholders occur once each.

  /** `lits[0] + fills[0] + lits[1] + ... + fills[k-1] + lits[k]`. */
  function Interleave(lits: seq<string>, fills: seq<string>): string
    requires |lits| == |fills| + 1
    decreases |fills|
  {
    if fills == [] then lits[0] else lits[0] + fills[0] + Interleave(lits[1..], fills[1..])
  }

  /** The parts that stand for `lits` interleaved with references to `names`. */
  function Segments(lits: seq<string>, names: seq<string>): seq<Part>
    requires |lits| == |names| + 1
    decreases |names|
  {
    if names == [] then NonEmptyText(lits[0])
    else NonEmptyText(lits[0]) + [ArgName(names[0])] + Segments(lits[1..], names[1..])
  }

  /** `env` applied to each name. */
  function Lookup(env: string -> string, names: seq<string>): (vs: seq<string>)
    ensures |vs| == |names|
    ensures forall i :: 0 <= i < |names| ==> vs[i] == env(names[i])
  {
    if names == [] then [] else [env(names[0])] + Lookup(env, names[1..])
  }

  /** Rendering the segments substitutes each name's value between the literals. */
  lemma {:induction false} RenderSegments(lits: seq<string>, names: seq<string>, env: string -> string)
    requires |lits| == |names| + 1
    ensures Undefined !in Segments(lits, names)
    ensures Render(Segments(lits, names), env) == Interleave(lits, Lookup(env, names))
    decreases |names|
  {
    var head := NonEmptyText(lits[0]);
    assert Render(head, env) == lits[0] by {
      if lits[0] != "" {
        assert head[1..] == [];
      }
    }
    if names != [] {
      RenderSegments(lits[1..], names[1..], env);
      var arg := [ArgName(names[0])];
      var rest := Segments(lits[1..], names[1..]);
      assert arg[1..] == [];
      RenderAppend(head, arg, env);
      RenderAppend(head + arg, rest, env);
      assert Lookup(env, names)[1..] == Lookup(env, names[1..]);
    }
  }

  /** The first `add` for a string whose match texts occur once each: it consumes the first literal and match. */
  lemma SoleStep(acc: seq<Part>, lits: seq<string>, ms: seq<PlaceholderMatch>)
    requires |lits| == |ms| + 1 && ms != []
    requires forall i :: 0 <= i < |ms| ==> AtMostOnce(Interleave(lits, Texts(ms)), ms[i].fullText)
    ensures AddPart(BuilderState(acc, Some(Interleave(lits, Texts(ms)))), ms[0].name, ms[0].fullText)
      == Ok(BuilderState(acc + NonEmptyText(lits[0]) + [ArgName(ms[0].name)], Some(Interleave(lits[1..], Texts(ms[1..])))))
    ensures forall i :: 0 <= i < |ms[1..]| ==> AtMostOnce(Interleave(lits[1..], Texts(ms[1..])), ms[1..][i].fullText)
  {
    var s := Interleave(lits, Texts(ms));
    var t := ms[0].fullText;
    var rest := Interleave(lits[1..], Texts(ms[1..]));
    assert Texts(ms)[1..] == Texts(ms[1..]);
    assert s == lits[0] + t + rest;
    SplitAtSoleOccurrence(lits[0], t, rest);
    forall i | 0 <= i < |ms[1..]|
      ensures AtMostOnce(rest, ms[1..][i].fullText)
    {
      assert lits[0] + t + rest == (lits[0] + t) + rest;
      AtMostOnceSuffix(lits[0] + t, rest, ms[i + 1].fullText);
    }
  }

  /** The segments after the parts so far, one literal and name at a time. */
  lemma SegmentsCons(acc: seq<Part>, lits: seq<string>, names: seq<string>)
    requires |lits| == |names| + 1 && names != []
    ensures acc + Segments(lits, names)
      == (acc + NonEmptyText(lits[0]) + [ArgName(names[0])]) + Segments(lits[1..], names[1..])
  {
  }

  /** The adds and the getter for a string whose match texts occur once each, from any parts so far. */
  lemma {:induction false} CompleteSegments(acc: seq<Part>, lits: seq<string>, ms: seq<PlaceholderMatch>)
    requires |lits| == |ms| + 1
    requires forall i :: 0 <= i < |ms| ==> AtMostOnce(Interleave(lits, Texts(ms)), ms[i].fullText)
    ensures Complete(BuilderState(acc, Some(Interleave(lits, Texts(ms)))), ms)
      == Ok(acc + Segments(lits, MatchNames(ms)))
    decreases |ms|
  {
    if ms == [] {
      assert Interleave(lits, Texts(ms)) == lits[0];
    } else {
      SoleStep(acc, lits, ms);
      var next := BuilderState(acc + NonEmptyText(lits[0]) + [ArgName(ms[0].name)],
        Some(Interleave(lits[1..], Texts(ms[1..]))));
      CompleteSegments(next.stringPart, lits[1..], ms[1..]);
      assert MatchNames(ms)[1..] == MatchNames(ms[1..]);
      SegmentsCons(acc, lits, MatchNames(ms));
    }
  }

  /**
   * For a string made of literals and placeholder texts, each of which occurs
   * only once in it, the builder keeps every non-empty literal and puts each
   * match's argument name where its text was.
   */
  lemma BuildPartsOfSoleOccurrences(lits: seq<string>, ms: seq<PlaceholderMatch>)
    requires |lits| == |ms| + 1
    requires forall i :: 0 <= i < |ms| ==> AtMostOnce(Interleave(lits, Texts(ms)), ms[i].fullText)
    ensures BuildParts(Interleave(lits, Texts(ms)), ms) == Ok(Segments(lits, MatchNames(ms)))
  {
    CompleteSegments([], lits, ms);
    assert [] + Segments(lits, MatchNames(ms)) == Segments(lits, MatchNames(ms));
  }

  /**
   * Round trip: rendering the built parts with every argument bound to the
   * text of its own placeholder gives back the original string.
   */
  lemma BuildPartsRenderRoundTrip(lits: seq<string>, ms: seq<PlaceholderMatch>, env: string -> string)
    requires |lits| == |ms| + 1
    requires forall i :: 0 <= i < |ms| ==> AtMostOnce(Interleave(lits, Texts(ms)), ms[i].fullText)
    requires forall i :: 0 <= i < |ms| ==> env(ms[i].name) == ms[i].fullText
    ensures BuildParts(Interleave(lits, Texts(ms)), ms).Ok?
    ensures Undefined !in BuildParts(Interleave(lits, Texts(ms)), ms).value
    ensures Render(BuildParts(Interleave(lits, Texts(ms)), ms).value, env) == Interleave(lits, Texts(ms))
  {
    BuildPartsOfSoleOccurrences(lits, ms);
    RenderSegments(lits, MatchNames(ms), env);
    assert Lookup(env, MatchNames(ms)) == Texts(ms);
  }

  /**
   * A placeholder written twice with a space between, as in `"{a} {a}"`: the
   * first split consumes both occurrences, the second finds none, and the
   * remainder is left `undefined` in the parts.
   */
  lemma RepeatedPlaceholderLeavesUndefined(m: PlaceholderMatch)
    requires m.fullText[0] != ' '
    ensures BuildParts(m.fullText + " " + m.fullText, [m, m])
      == Ok([ArgName(m.name), Text(" "), ArgName(m.name), Undefined])
  {
    var t := m.fullText;
    assert t + " " + t == t + ([' '] + t);
    AddAtStart([], m.name, t, [' '] + t);
    SplitAfterChar(' ', t);
    var st1 := BuilderState([ArgName(m.name)], Some([' ']));
    assert [] + [ArgName(m.name)] == [ArgName(m.name)];
    assert AddPart(Initial(t + " " + t), m.name, t) == Ok(st1);
    AddOnChar([ArgName(m.name)], m.name, ' ', t);
    var st2 := BuilderState([ArgName(m.name), Text([' ']), ArgName(m.name)], None);
    assert [ArgName(m.name)] + [Text([' ']), ArgName(m.name)] == st2.stringPart;
    assert AddPart(st1, m.name, t) == Ok(st2);
    assert [m, m][1..] == [m] && [m][1..] == [];
    assert AddAll(st2, []) == Ok(st2);
    assert AddAll(st1, [m]) == Ok(st2);
    assert AddAll(Initial(t + " " + t), [m, m]) == Ok(st2);
    assert BuildParts(t + " " + t, [m, m]) == Ok(Finish(st2));
    assert Finish(st2) == st2.stringPart + [Undefined];
    assert [' '] == " ";
    assert Finish(st2) == [ArgName(m.name), Text(" "), ArgName(m.name), Undefined];
  }

  /** `add` on a one-character remainder that does not begin the match: the character is pushed as text, and the remainder becomes `undefined`. */
  lemma AddOnChar(parts: seq<Part>, name: string, c: char, t: MatchText)
    requires c != t[0]
    ensures AddPart(BuilderState(parts, Some([c])), name, t)
      == Ok(BuilderState(parts + [Text([c]), ArgName(name)], None))
  {
    SplitSingleChar(c, t);
    assert parts + NonEmptyText([c]) + [ArgName(name)] == parts + [Text([c]), ArgName(name)];
  }

  /** `add` when the remainder starts with the match: no text is pushed, and the rest's first piece remains. */
  lemma AddAtStart(parts: seq<Part>, name: string, t: MatchText, rest: string)
    ensures AddPart(BuilderState(parts, Some(t + rest)), name, t)
      == Ok(BuilderState(parts + [ArgName(name)], Some(Split(rest, t)[0])))
  {
    SplitAtStart(t, rest);
    assert parts + NonEmptyText("") + [ArgName(name)] == parts + [ArgName(name)];
  }

  /** `add` on an empty remainder: the split has one piece, so the remainder becomes `undefined`. */
  lemma AddOnEmpty(parts: seq<Part>, name: string, t: MatchText)
    ensures AddPart(BuilderState(parts, Some("")), name, t) == Ok(BuilderState(parts + [ArgName(name)], None))
  {
    SplitShort("", t);
    assert parts + NonEmptyText("") + [ArgName(name)] == parts + [ArgName(name)];
  }

  /** A placeholder written three times in a row: the third `add` splits `undefined` and throws. */
  lemma ThriceRepeatedPlaceholderThrows(m: PlaceholderMatch)
    ensures BuildParts(m.fullText + m.fullText + m.fullText, [m, m, m]) == Err(SplitOfUndefined)
  {
    var t := m.fullText;
    assert t + t + t == t + (t + t);
    AddAtStart([], m.name, t, t + t);
    SplitAtStart(t, t);
    var st1 := BuilderState([] + [ArgName(m.name)], Some(""));
    AddOnEmpty(st1.stringPart, m.name, t);
    var st2 := BuilderState(st1.stringPart + [ArgName(m.name)], None);
    assert AddPart(st2, m.name, t) == Err(SplitOfUndefined);
    assert [m, m, m][1..] == [m, m] && [m, m][1..] == [m];
    assert AddAll(st2, [m]) == Err(SplitOfUndefined);
    assert AddAll(st1, [m, m]) == Err(SplitOfUndefined);
  }

  /** The builder object: its two variables, updated in place by `add` and by the getter. */
  class StringPartsBuilder {
    var stringPart: seq<Part>
    var unprocessedValue: Option<string>

    /** The builder's variables as a value. */
    function State(): BuilderState
      reads this
    {
      BuilderState(stringPart, unprocessedValue)
    }

    /** `createStringPartsBuilder(value)`. */
    constructor (value: string)
      ensures State() == Initial(value)
    {
      stringPart := [];
      unprocessedValue := Some(value);
    }

    /** `add(arg, argStringMatch)`; a split of an `undefined` remainder throws and changes nothing. */
    method Add(arg: Arg, argStringMatch: MatchText) returns (r: Result<()>)
      modifies this
      ensures AddPart(old(State()), arg.name, argStringMatch).Ok? ==>
        r.Ok? && State() == AddPart(old(State()), arg.name, argStringMatch).value
      ensures AddPart(old(State()), arg.name, argStringMatch).Err? ==>
        r == Err(SplitOfUndefined) && State() == old(State())
    {
      if unprocessedValue.None? {
        return Err(SplitOfUndefined);
      }
      var splitValue := Split(unprocessedValue.value, argStringMatch);
      unprocessedValue := if |splitValue| > 1 then Some(splitValue[1]) else None;
      if splitValue[0] != "" {
        stringPart := stringPart + [Text(splitValue[0])];
      }
      stringPart := stringPart + [ArgName(arg.name)];
      return Ok(());
    }

    /** The `stringPart` getter, which pushes the remainder onto the parts it returns. */
    method GetStringPart() returns (parts: seq<Part>)
      modifies this
      ensures parts == Finish(old(State()))
      ensures stringPart == parts && unprocessedValue == old(unprocessedValue)
    {
      if unprocessedValue != Some("") {
        var last := match unprocessedValue case None => Undefined case Some(rest) => Text(rest);
        stringPart := stringPart + [last];
      }
      parts := stringPart;
    }
  }
}
