/**
 * `createArgSet`: an insertion-ordered map from argument name to argument.
 * Initial arguments are stored with `Map.set` semantics; `add` ignores an
 * argument whose name is already present.
 */
module ArgSets {
  import opened IntermediateStructure

  /** The index of the first argument of `xs` named `n`, or `|xs|` if there is none. */
  function FirstIndex(xs: seq<Arg>, n: string): (k: nat)
    ensures k <= |xs|
    ensures k < |xs| ==> xs[k].name == n
    ensures forall j :: 0 <= j < k ==> xs[j].name != n
  {
    if xs == [] then 0
    else if xs[0].name == n then 0
    else 1 + FirstIndex(xs[1..], n)
  }

  /** `argMap.has(n)`. */
  predicate Has(args: seq<Arg>, n: string) {
    FirstIndex(args, n) < |args|
  }

  /** `argMap.set(arg.name, arg)`: overwrite the entry of that name in place, or append. */
  function SetArg(args: seq<Arg>, a: Arg): seq<Arg> {
    var k := FirstIndex(args, a.name);
    if k < |args| then args[k := a] else args + [a]
  }

  /** `new Map(initialArgs.map(...))`: the initial arguments set one after another. */
  function SetAll(args: seq<Arg>, more: seq<Arg>): seq<Arg>
    decreases |more|
  {
    if more == [] then args else SetAll(SetArg(args, more[0]), more[1..])
  }

  /** `add(arg)`: a name already present changes nothing; a new name is appended. */
  function AddArg(args: seq<Arg>, a: Arg): seq<Arg> {
    if Has(args, a.name) then args else args + [a]
  }

  /** `add` applied to each of `more` in turn. */
  function AddArgs(args: seq<Arg>, more: seq<Arg>): seq<Arg>
    decreases |more|
  {
    if more == [] then args else AddArgs(AddArg(args, more[0]), more[1..])
  }

  /** Each argument of `r` is the first one in `history` with its name. */
  ghost predicate KeepsFirst(r: seq<Arg>, history: seq<Arg>) {
    forall i :: 0 <= i < |r| ==>
      FirstIndex(history, r[i].name) < |history| && history[FirstIndex(history, r[i].name)] == r[i]
  }

  /** Every name of `history` has an argument in `r`. */
  ghost predicate CoversNames(r: seq<Arg>, history: seq<Arg>) {
    forall j :: 0 <= j < |history| ==> Has(r, history[j].name)
  }

  /** The arguments of `r` are in the order in which their names first occur in `history`. */
  ghost predicate InFirstSeenOrder(r: seq<Arg>, history: seq<Arg>) {
    forall i, j :: 0 <= i < j < |r| ==> FirstIndex(history, r[i].name) < FirstIndex(history, r[j].name)
  }

  /**
   * `r` keeps, for each name occurring in `history`, the first argument with
   * that name, in the order in which the names first occur.
   */
  ghost predicate FirstOccurrences(r: seq<Arg>, history: seq<Arg>) {
    KeepsFirst(r, history) && CoversNames(r, history) && InFirstSeenOrder(r, history)
  }

  /** Keeping first occurrences implies that no name is kept twice. */
  lemma FirstOccurrencesDistinct(r: seq<Arg>, history: seq<Arg>)
    requires FirstOccurrences(r, history)
    ensures DistinctNames(r)
  {
  }

  /** The `i`-th kept argument first occurs at index `i` or later. */
  lemma {:induction false} FirstIndexAtLeast(r: seq<Arg>, history: seq<Arg>, i: nat)
    requires InFirstSeenOrder(r, history) && i < |r|
    ensures FirstIndex(history, r[i].name) >= i
  {
    if i > 0 {
      FirstIndexAtLeast(r, history, i - 1);
    }
  }

  /** Keeping first occurrences never keeps more arguments than the history has. */
  lemma FirstOccurrencesLength(r: seq<Arg>, history: seq<Arg>)
    requires FirstOccurrences(r, history)
    ensures |r| <= |history|
  {
    if |r| > 0 {
      FirstIndexAtLeast(r, history, |r| - 1);
    }
  }

  /** A list without repeated names is its own list of first occurrences. */
  lemma FirstOccurrencesOfDistinct(xs: seq<Arg>)
    requires DistinctNames(xs)
    ensures FirstOccurrences(xs, xs)
  {
    forall i | 0 <= i < |xs|
      ensures FirstIndex(xs, xs[i].name) == i
    {
    }
  }

  /** Where the first `n` lies in `history + [a]`. */
  lemma FirstIndexAppend(history: seq<Arg>, a: Arg, n: string)
    ensures Has(history, n) ==> FirstIndex(history + [a], n) == FirstIndex(history, n)
    ensures !Has(history, n) && n == a.name ==> FirstIndex(history + [a], n) == |history|
    ensures !Has(history, n) && n != a.name ==> FirstIndex(history + [a], n) == |history| + 1
  {
    var h := history + [a];
    var k := FirstIndex(history, n);
    if k < |history| {
      assert h[k].name == n;
    } else if n == a.name {
      assert h[|history|].name == n;
    }
  }

  /** Under first occurrences, a name is in the set exactly when it occurs in the history. */
  lemma HasIffSeen(r: seq<Arg>, history: seq<Arg>, n: string)
    requires KeepsFirst(r, history) && CoversNames(r, history)
    ensures Has(r, n) <==> Has(history, n)
  {
    if Has(r, n) {
      assert r[FirstIndex(r, n)].name == n;
    }
    if Has(history, n) {
      assert history[FirstIndex(history, n)].name == n;
    }
  }

  /** Names already in the history keep their first index when an argument is appended. */
  lemma FirstIndexStable(history: seq<Arg>, a: Arg, n: string)
    requires Has(history, n)
    ensures FirstIndex(history + [a], n) == FirstIndex(history, n)
    ensures (history + [a])[FirstIndex(history, n)] == history[FirstIndex(history, n)]
  {
    FirstIndexAppend(history, a, n);
  }

  /** `add` of a name already present: the set is unchanged and still keeps first occurrences. */
  lemma AddKnownFirstOccurrences(args: seq<Arg>, a: Arg, history: seq<Arg>)
    requires FirstOccurrences(args, history)
    requires Has(args, a.name)
    ensures FirstOccurrences(args, history + [a])
  {
    var h := history + [a];
    forall i | 0 <= i < |args|
      ensures FirstIndex(h, args[i].name) == FirstIndex(history, args[i].name)
      ensures h[FirstIndex(h, args[i].name)] == args[i]
    {
      FirstIndexStable(history, a, args[i].name);
    }
    assert KeepsFirst(args, h);
    forall j | 0 <= j < |h|
      ensures Has(args, h[j].name)
    {
      if j < |history| {
        assert h[j] == history[j];
      }
    }
    assert CoversNames(args, h);
  }

  /** `add` of a new name: it is appended, after every name seen before it. */
  lemma AddNewFirstOccurrences(args: seq<Arg>, a: Arg, history: seq<Arg>)
    requires FirstOccurrences(args, history)
    requires !Has(args, a.name)
    ensures FirstOccurrences(args + [a], history + [a])
  {
    var h := history + [a];
    var r := args + [a];
    HasIffSeen(args, history, a.name);
    FirstIndexAppend(history, a, a.name);
    assert FirstIndex(h, a.name) == |history|;
    forall i | 0 <= i < |args|
      ensures FirstIndex(h, args[i].name) == FirstIndex(history, args[i].name) < |history|
      ensures h[FirstIndex(h, args[i].name)] == args[i]
    {
      FirstIndexStable(history, a, args[i].name);
    }
    forall i | 0 <= i < |r|
      ensures FirstIndex(h, r[i].name) < |h| && h[FirstIndex(h, r[i].name)] == r[i]
    {
      if i < |args| {
        assert r[i] == args[i];
      }
    }
    assert KeepsFirst(r, h);
    FirstIndexAppend(args, a, a.name);
    forall j | 0 <= j < |h|
      ensures Has(r, h[j].name)
    {
      if j < |history| {
        assert Has(args, history[j].name);
        FirstIndexAppend(args, a, history[j].name);
      }
    }
    assert CoversNames(r, h);
    forall i, j | 0 <= i < j < |r|
      ensures FirstIndex(h, r[i].name) < FirstIndex(h, r[j].name)
    {
      assert r[i] == args[i];
      if j < |args| {
        assert r[j] == args[j];
      }
    }
    assert InFirstSeenOrder(r, h);
  }

  /** One `add` keeps the first occurrences of the history extended by the added argument. */
  lemma AddArgFirstOccurrences(args: seq<Arg>, a: Arg, history: seq<Arg>)
    requires FirstOccurrences(args, history)
    ensures FirstOccurrences(AddArg(args, a), history + [a])
  {
    if Has(args, a.name) {
      AddKnownFirstOccurrences(args, a, history);
    } else {
      AddNewFirstOccurrences(args, a, history);
    }
  }

  /** Moving the head of `more` onto the end of `history`. */
  lemma ConsAppend(history: seq<Arg>, more: seq<Arg>)
    requires more != []
    ensures history + [more[0]] + more[1..] == history + more
  {
  }

  /**
   * Adding arguments in turn keeps, for each name, the first argument seen
   * with it, in order of first appearance; in particular no name is kept twice.
   */
  lemma {:induction false} AddArgsFirstOccurrences(args: seq<Arg>, more: seq<Arg>, history: seq<Arg>)
    requires FirstOccurrences(args, history)
    ensures FirstOccurrences(AddArgs(args, more), history + more)
    decreases |more|
  {
    if more != [] {
      var next := AddArg(args, more[0]);
      var seen := history + [more[0]];
      AddArgFirstOccurrences(args, more[0], history);
      AddArgsFirstOccurrences(next, more[1..], seen);
      ConsAppend(history, more);
      assert AddArgs(args, more) == AddArgs(next, more[1..]);
    } else {
      assert history + more == history;
    }
  }

  /** Arguments already in the set stay where they are: the old list is a prefix of the new one. */
  lemma {:induction false} AddArgsKeepsPrefix(args: seq<Arg>, more: seq<Arg>)
    ensures |AddArgs(args, more)| >= |args|
    ensures AddArgs(args, more)[..|args|] == args
    decreases |more|
  {
    if more != [] {
      AddArgsKeepsPrefix(AddArg(args, more[0]), more[1..]);
    }
  }

  /** Setting an argument whose name is new appends it. */
  lemma SetArgNew(args: seq<Arg>, a: Arg)
    requires forall i :: 0 <= i < |args| ==> args[i].name != a.name
    ensures SetArg(args, a) == args + [a]
  {
  }

  /** `Map.set` never introduces a second entry with the same name. */
  lemma SetArgDistinct(args: seq<Arg>, a: Arg)
    requires DistinctNames(args)
    ensures DistinctNames(SetArg(args, a))
  {
    var k := FirstIndex(args, a.name);
    if k == |args| {
      forall i | 0 <= i < |args|
        ensures args[i].name != a.name
      {
      }
    }
  }

  /** Initial arguments with distinct names are stored as given, in order. */
  lemma {:induction false} SetAllDistinct(args: seq<Arg>, more: seq<Arg>)
    requires DistinctNames(args + more)
    ensures SetAll(args, more) == args + more
    decreases |more|
  {
    if more != [] {
      forall i | 0 <= i < |args|
        ensures args[i].name != more[0].name
      {
        assert (args + more)[i] == args[i];
        assert (args + more)[|args|] == more[0];
      }
      SetArgNew(args, more[0]);
      assert args + [more[0]] + more[1..] == args + more;
      SetAllDistinct(args + [more[0]], more[1..]);
    }
  }

  /** The names of a concatenation are the names of its two halves. */
  lemma ArgNameSetAppend(a: seq<Arg>, b: seq<Arg>)
    ensures ArgNameSet(a + b) == ArgNameSet(a) + ArgNameSet(b)
  {
    forall x | x in ArgNameSet(a + b)
      ensures x in ArgNameSet(a) + ArgNameSet(b)
    {
      var i :| 0 <= i < |a + b| && (a + b)[i].name == x;
      if i < |a| {
        assert a[i].name == x;
      } else {
        assert b[i - |a|].name == x;
      }
    }
    forall x | x in ArgNameSet(a) + ArgNameSet(b)
      ensures x in ArgNameSet(a + b)
    {
      if x in ArgNameSet(a) {
        var i :| 0 <= i < |a| && a[i].name == x;
        assert (a + b)[i].name == x;
      } else {
        var i :| 0 <= i < |b| && b[i].name == x;
        assert (a + b)[|a| + i].name == x;
      }
    }
  }

  /** Adding one argument adds its name, if it is not there already. */
  lemma AddArgName(args: seq<Arg>, a: Arg)
    ensures ArgNameSet(AddArg(args, a)) == ArgNameSet(args) + {a.name}
  {
    if Has(args, a.name) {
      assert args[FirstIndex(args, a.name)].name == a.name;
    } else {
      ArgNameSetAppend(args, [a]);
      assert ArgNameSet([a]) == {a.name} by {
        assert [a][0].name == a.name;
      }
    }
  }

  /** Adding arguments keeps the names there were and adds the new ones' names, and no other. */
  lemma {:induction false} AddArgsNames(args: seq<Arg>, more: seq<Arg>)
    ensures ArgNameSet(AddArgs(args, more)) == ArgNameSet(args) + ArgNameSet(more)
    decreases |more|
  {
    if more != [] {
      AddArgsNames(AddArg(args, more[0]), more[1..]);
      AddArgName(args, more[0]);
      ArgNameSetAppend([more[0]], more[1..]);
      assert [more[0]] + more[1..] == more;
      assert ArgNameSet([more[0]]) == {more[0].name} by {
        assert [more[0]][0].name == more[0].name;
      }
    }
  }

  /** An argument set whose contents the methods update in place. */
  class ArgSet {
    /** The map's values in insertion order; each is keyed by its own name. */
    var args: seq<Arg>

    ghost predicate Valid()
      reads this
    {
      DistinctNames(args)
    }

    /** `createArgSet(initialArgs)`: the initial arguments stored with `Map.set`, so a later one replaces an earlier one of the same name. */
    constructor (initialArgs: seq<Arg>)
      ensures Valid()
      ensures args == SetAll([], initialArgs)
    {
      args := [];
      new;
      for i := 0 to |initialArgs|
        invariant DistinctNames(args)
        invariant SetAll(args, initialArgs[i..]) == SetAll([], initialArgs)
      {
        assert initialArgs[i..][1..] == initialArgs[i + 1..];
        SetArgDistinct(args, initialArgs[i]);
        args := SetArg(args, initialArgs[i]);
      }
      assert initialArgs[|initialArgs|..] == [];
    }

    /** `add(arg)`. */
    method Add(arg: Arg)
      requires Valid()
      modifies this
      ensures Valid()
      ensures args == AddArg(old(args), arg)
    {
      if Has(args, arg.name) {
        return;
      }
      args := args + [arg];
    }

    /** The `args` getter: the arguments in insertion order. */
    function Args(): seq<Arg>
      reads this
    {
      args
    }
  }
}
