/**
 The argument parser object of argparser.py: values taken from the call's arguments, the
 frame stack, the calls to the external parameter processor, and the closing check.
 */
module ArgumentParser {
  import Listings
  import opened Options
  import opened ArgumentTree
  import opened ArgumentFrames

  datatype Param = Param(name: string, optional: bool, ancestry: seq<Ancestor>)

  /** Absent is Python's None. */
  datatype Value = Absent | Given(content: string)

  datatype Keyword = Keyword(name: string, value: Value)

  /** The arguments not used yet, and the parameters that have taken one. */
  datatype Supply = Supply(args: seq<Value>, kwargs: seq<Keyword>, given: set<string>)

  /** One call of the external parameter processor. */
  datatype Call = Call(name: string, inChoice: bool, value: Value)

  datatype Outcome =
    | Counts(required: nat, allowed: nat)
    | SeveralValuesForChoice
    | RepeatedParameter(name: string)
    | UnexpectedKeyword(name: string)
    | TooManyPositional(required: nat, allowed: nat, given: nat)

  // ----- values -----

  function Find(kwargs: seq<Keyword>, name: string): (i: nat)
    ensures i <= |kwargs|
    ensures i < |kwargs| ==> kwargs[i].name == name
    ensures forall k :: 0 <= k < i ==> kwargs[k].name != name
  {
    if kwargs == [] || kwargs[0].name == name then 0 else 1 + Find(kwargs[1..], name)
  }

  function ValueFor(s: Supply, name: string): Value {
    if s.args != [] then s.args[0]
    else
      var i := Find(s.kwargs, name);
      if i < |s.kwargs| then s.kwargs[i].value else Absent
  }

  function Used(s: Supply, name: string): Supply {
    if s.args != [] then Supply(s.args[1..], s.kwargs, s.given + {name})
    else
      var i := Find(s.kwargs, name);
      if i < |s.kwargs| then Supply([], s.kwargs[..i] + s.kwargs[i + 1..], s.given + {name}) else s
  }

  /** The values of the parameters, in order; they do not depend on the tree. */
  function Values(s: Supply, defs: seq<Param>): (r: seq<Value>)
    ensures |r| == |defs|
    decreases |defs|
  {
    if defs == [] then [] else [ValueFor(s, defs[0].name)] + Values(Used(s, defs[0].name), defs[1..])
  }

  function Leftover(s: Supply, defs: seq<Param>): Supply
    decreases |defs|
  {
    if defs == [] then s else Leftover(Used(s, defs[0].name), defs[1..])
  }

  function ItemOf(d: Param, v: Value): Item {
    Item(d.optional, v.Given?, d.ancestry)
  }

  function ItemsOf(defs: seq<Param>, values: seq<Value>): seq<Item>
    requires |defs| == |values|
  {
    if defs == [] then [] else [ItemOf(defs[0], values[0])] + ItemsOf(defs[1..], values[1..])
  }

  // ----- the parser as a function -----

  datatype State = State(stack: Result<Stack>, supply: Supply, calls: seq<Call>)

  predicate InChoice(s: Stack) {
    exists i :: 0 <= i < |s| && IsChoice(s[i])
  }

  function Process(st: State, strict: bool, d: Param): (r: State)
    requires st.stack.Ok? && st.stack.value != []
    ensures r.stack.Ok? ==> r.stack.value != []
  {
    var value := ValueFor(st.supply, d.name);
    var supply := Used(st.supply, d.name);
    var stack := Step(st.stack.value, strict, ItemOf(d, value));
    if stack.Conflicting? then State(stack, supply, st.calls)
    else State(stack, supply, st.calls + [Call(d.name, InChoice(stack.value), value)])
  }

  function ProcessAll(st: State, strict: bool, defs: seq<Param>): (r: State)
    requires st.stack.Ok? && st.stack.value != []
    ensures r.stack.Ok? ==> r.stack.value != []
    decreases |defs|
  {
    if defs == [] then st
    else
      var n := Process(st, strict, defs[0]);
      if n.stack.Conflicting? then n else ProcessAll(n, strict, defs[1..])
  }

  function CheckExtra(strict: bool, left: Supply, required: nat, allowed: nat, given: nat): Outcome {
    if !strict then Counts(required, allowed)
    else if left.kwargs != [] then
      if left.kwargs[0].name in left.given then RepeatedParameter(left.kwargs[0].name)
      else UnexpectedKeyword(left.kwargs[0].name)
    else if left.args != [] then TooManyPositional(required, allowed, given)
    else Counts(required, allowed)
  }

  function Finish(st: State, strict: bool, given: nat): Outcome
    requires st.stack.Ok? ==> st.stack.value != []
  {
    if st.stack.Conflicting? then SeveralValuesForChoice
    else
      var closed := PopTo(st.stack.value, strict, 0);
      if closed.Conflicting? then SeveralValuesForChoice
      else CheckExtra(strict, st.supply, closed.value[0].required, closed.value[0].allowed, given)
  }

  function Begin(args: seq<Value>, kwargs: seq<Keyword>): State {
    State(Ok(START), Supply(args, kwargs, {}), [])
  }

  function Parse(defs: seq<Param>, args: seq<Value>, kwargs: seq<Keyword>, strict: bool): Outcome {
    Finish(ProcessAll(Begin(args, kwargs), strict, defs), strict, |args| + |kwargs|)
  }

  function CallsMade(defs: seq<Param>, args: seq<Value>, kwargs: seq<Keyword>, strict: bool): seq<Call> {
    ProcessAll(Begin(args, kwargs), strict, defs).calls
  }

  // ----- what it promises -----

  ghost predicate UnderChoice(d: Param) {
    exists i :: 0 <= i < |d.ancestry| && d.ancestry[i].choice
  }

  /** One call for each parameter: its own value, flagged exactly when some ancestor is a choice. */
  ghost function ExpectedCalls(defs: seq<Param>, values: seq<Value>): (r: seq<Call>)
    requires |defs| == |values|
    ensures |r| == |defs|
  {
    if defs == [] then []
    else [Call(defs[0].name, UnderChoice(defs[0]), values[0])] + ExpectedCalls(defs[1..], values[1..])
  }

  lemma {:induction false} PushedItems(s: Stack, items: seq<Ancestor>)
    ensures forall i :: 0 <= i < |items| ==> PushAll(s, items)[|s| + i].item == Some(items[i])
    decreases |items|
  {
    if items != [] {
      var s1 := s + [NewFrame(Some(items[0]))];
      PushedItems(s1, items[1..]);
      var r := PushAll(s, items);
      assert r[|s|] == r[..|s| + 1][|s|];
      forall i | 0 <= i < |items| ensures r[|s| + i].item == Some(items[i]) {
        if i > 0 {
          assert r[|s1| + (i - 1)].item == Some(items[1..][i - 1]);
        }
      }
    }
  }

  lemma {:induction false} MatchedItems(s: Stack, ancestry: seq<Ancestor>, from: nat)
    requires s != [] && from < |s| && from <= |ancestry|
    ensures forall i :: from <= i < Matching(s, ancestry, from) ==> s[i + 1].item == Some(ancestry[i])
    decreases |s| - from
  {
    if from + 1 < |s| && from < |ancestry| && SameTag(s[from + 1], ancestry[from]) {
      MatchedItems(s, ancestry, from + 1);
    }
  }

  ghost predicate Sentinel(s: Stack) {
    s != [] && s[0].item == None
  }

  /** After the context is updated the stack stands for exactly the parameter's ancestry. */
  lemma ContextIsAncestry(s: Stack, strict: bool, ancestry: seq<Ancestor>)
    requires Sentinel(s) && ancestry != [] && UpdateContext(s, strict, ancestry).Ok?
    ensures var r := UpdateContext(s, strict, ancestry).value;
            |r| == |ancestry| + 1 && r[0].item == None
            && forall i :: 0 <= i < |ancestry| ==> r[i + 1].item == Some(ancestry[i])
  {
    var n := Matching(s, ancestry, 0);
    MatchedItems(s, ancestry, 0);
    var p := PopTo(s, strict, n).value;
    var r := PushAll(p, ancestry[n..]);
    PushedItems(p, ancestry[n..]);
    forall i | 0 <= i < |ancestry| ensures r[i + 1].item == Some(ancestry[i]) {
      if i < n {
        assert r[i + 1] == r[..|p|][i + 1];
        if i + 1 < n {
          assert p[i + 1] == p[..n][i + 1] == s[..n][i + 1];
        }
      } else {
        assert r[|p| + (i - n)].item == Some(ancestry[n..][i - n]);
      }
    }
    assert r[0] == r[..|p|][0];
    if n > 0 {
      assert p[0] == p[..n][0] == s[..n][0];
    }
  }

  lemma ChoiceFlag(s: Stack, strict: bool, d: Param, v: Value)
    requires Sentinel(s) && d.ancestry != [] && Step(s, strict, ItemOf(d, v)).Ok?
    ensures Sentinel(Step(s, strict, ItemOf(d, v)).value)
    ensures InChoice(Step(s, strict, ItemOf(d, v)).value) == UnderChoice(d)
  {
    ContextIsAncestry(s, strict, d.ancestry);
    var c := UpdateContext(s, strict, d.ancestry).value;
    var r := Step(s, strict, ItemOf(d, v)).value;
    forall i | 0 <= i < |r| ensures r[i].item == c[i].item {
      if i < |c| - 1 {
        assert r[i] == r[..|c| - 1][i] == c[..|c| - 1][i];
      }
    }
    if UnderChoice(d) {
      var i :| 0 <= i < |d.ancestry| && d.ancestry[i].choice;
      assert IsChoice(r[i + 1]);
    }
    if InChoice(r) {
      var i :| 0 <= i < |r| && IsChoice(r[i]);
      assert d.ancestry[i - 1].choice;
    }
  }

  lemma {:induction false} ProcessAllIsRun(st: State, strict: bool, defs: seq<Param>)
    requires st.stack.Ok? && Sentinel(st.stack.value)
    requires forall i :: 0 <= i < |defs| ==> defs[i].ancestry != []
    ensures var values := Values(st.supply, defs);
            var r := ProcessAll(st, strict, defs);
            && r.stack == Run(st.stack.value, strict, ItemsOf(defs, values))
            && st.calls <= r.calls <= st.calls + ExpectedCalls(defs, values)
            && (r.stack.Ok? ==> r.supply == Leftover(st.supply, defs)
                                && r.calls == st.calls + ExpectedCalls(defs, values))
    decreases |defs|
  {
    if defs != [] {
      var v := ValueFor(st.supply, defs[0].name);
      var n := Process(st, strict, defs[0]);
      var rest := ExpectedCalls(defs[1..], Values(Used(st.supply, defs[0].name), defs[1..]));
      CallsSplit(st.calls, Call(defs[0].name, UnderChoice(defs[0]), v), rest);
      if n.stack.Ok? {
        ChoiceFlag(st.stack.value, strict, defs[0], v);
        ProcessAllIsRun(n, strict, defs[1..]);
      }
    }
  }

  lemma CallsSplit(before: seq<Call>, c: Call, rest: seq<Call>)
    ensures before + ([c] + rest) == before + [c] + rest
    ensures before <= before + [c] && before <= before + ([c] + rest)
  {
  }

  /** The parameters are those of the trees, in order, and carry the values that the call gives. */
  ghost predicate Describes(tops: seq<Tree>, defs: seq<Param>, values: seq<Value>) {
    && |defs| == |values|
    && FlattenAll(tops, []) == ItemsOf(defs, values)
    && AllWellFormed(tops) && (forall i :: 0 <= i < |tops| ==> tops[i].Group?)
    && (forall i :: 0 <= i < |defs| ==> defs[i].ancestry != [])
  }

  /**
   Parsing reports the counts of the recursive account of the tree. It reports several values
   for one choice exactly when extra errors are on and some choice has two items with values,
   and otherwise only leftover arguments.
   */
  lemma ParseIsFold(tops: seq<Tree>, defs: seq<Param>, args: seq<Value>, kwargs: seq<Keyword>, strict: bool)
    requires Describes(tops, defs, Values(Supply(args, kwargs, {}), defs))
    ensures Parse(defs, args, kwargs, strict) ==
              if strict && AnyConflict(tops) then SeveralValuesForChoice
              else CheckExtra(strict, Leftover(Supply(args, kwargs, {}), defs),
                              SumRequired(tops), SumAllowed(tops), |args| + |kwargs|)
  {
    ProcessAllIsRun(Begin(args, kwargs), strict, defs);
    RunIsFold(strict, tops);
  }

  /** The external processor sees each parameter once and in order, or a start of them on an error. */
  lemma CallsAreExpected(tops: seq<Tree>, defs: seq<Param>, args: seq<Value>, kwargs: seq<Keyword>, strict: bool)
    requires Describes(tops, defs, Values(Supply(args, kwargs, {}), defs))
    ensures CallsMade(defs, args, kwargs, strict) <= ExpectedCalls(defs, Values(Supply(args, kwargs, {}), defs))
    ensures !Parse(defs, args, kwargs, strict).SeveralValuesForChoice? ==>
              CallsMade(defs, args, kwargs, strict) == ExpectedCalls(defs, Values(Supply(args, kwargs, {}), defs))
  {
    ProcessAllIsRun(Begin(args, kwargs), strict, defs);
    RunIsFold(strict, tops);
    var e := ExpectedCalls(defs, Values(Supply(args, kwargs, {}), defs));
    assert [] + e == e;
  }

  // ----- which argument goes where -----

  /** A dictionary: no name occurs twice. */
  ghost predicate IsDict(kwargs: seq<Keyword>) {
    forall i, j :: 0 <= i < j < |kwargs| ==> kwargs[i].name != kwargs[j].name
  }

  /** One of the parameters from n on, up to k, has the name. */
  predicate NamedFrom(defs: seq<Param>, n: nat, k: nat, name: string)
    requires k <= |defs|
  {
    exists m :: n <= m < k && defs[m].name == name
  }

  /** A parameter's value: the argument in its place, else the keyword of its name unless one before it took that. */
  ghost predicate IsValueOf(args: seq<Value>, kwargs: seq<Keyword>, defs: seq<Param>, k: nat, v: Value)
    requires k < |defs|
  {
    if k < |args| then v == args[k]
    else if NamedFrom(defs, |args|, k, defs[k].name) then v == Absent
    else
      && (forall i :: 0 <= i < |kwargs| && kwargs[i].name == defs[k].name ==> v == kwargs[i].value)
      && ((forall i :: 0 <= i < |kwargs| ==> kwargs[i].name != defs[k].name) ==> v == Absent)
  }

  lemma NamedFromNext(defs: seq<Param>, n: nat, k: nat, name: string)
    requires 0 < k <= |defs|
    ensures n > 0 ==> (NamedFrom(defs, n, k, name) <==> NamedFrom(defs[1..], n - 1, k - 1, name))
    ensures NamedFrom(defs, 0, k, name) <==> defs[0].name == name || NamedFrom(defs[1..], 0, k - 1, name)
  {
    var rest := defs[1..];
    assert forall m :: 1 <= m < |defs| ==> defs[m] == rest[m - 1];
    if n > 0 && NamedFrom(rest, n - 1, k - 1, name) {
      var m :| n - 1 <= m < k - 1 && rest[m].name == name;
      assert defs[m + 1].name == name;
    }
    if NamedFrom(rest, 0, k - 1, name) {
      var m :| 0 <= m < k - 1 && rest[m].name == name;
      assert defs[m + 1].name == name;
    }
  }

  /** Taking a keyword leaves the others, in their order. */
  lemma UsedKeywords(s: Supply, name: string)
    requires s.args == [] && IsDict(s.kwargs)
    ensures var r := Used(s, name);
            && r.args == [] && IsDict(r.kwargs)
            && (forall w :: w in r.kwargs <==> w in s.kwargs && w.name != name)
            && (forall n :: n in r.given <==>
                  n in s.given || (n == name && exists w :: w in s.kwargs && w.name == name))
  {
    var i := Find(s.kwargs, name);
    if i < |s.kwargs| {
      var r := s.kwargs[..i] + s.kwargs[i + 1..];
      forall w | w in s.kwargs && w.name != name ensures w in r {
        var j :| 0 <= j < |s.kwargs| && s.kwargs[j] == w;
        assert r[if j < i then j else j - 1] == w;
      }
      assert s.kwargs[i] in s.kwargs;
    }
  }

  lemma {:induction false} ValuesInPlace(s: Supply, defs: seq<Param>, k: nat)
    requires IsDict(s.kwargs) && k < |defs|
    ensures IsValueOf(s.args, s.kwargs, defs, k, Values(s, defs)[k])
    decreases |defs|
  {
    var u := Used(s, defs[0].name);
    if k > 0 {
      NamedFromNext(defs, |s.args|, k, defs[k].name);
      if s.args == [] {
        UsedKeywords(s, defs[0].name);
        ValuesInPlace(u, defs[1..], k - 1);
        KeywordsOfOthers(s, defs, k, Values(s, defs)[k]);
      } else {
        ValuesInPlace(u, defs[1..], k - 1);
      }
    } else {
      assert !NamedFrom(defs, |s.args|, 0, defs[0].name);
      if s.args == [] {
        FirstKeyword(s.kwargs, defs[0].name);
      }
    }
  }

  lemma FirstKeyword(kwargs: seq<Keyword>, name: string)
    requires IsDict(kwargs)
    ensures forall i :: 0 <= i < |kwargs| && kwargs[i].name == name ==> i == Find(kwargs, name)
  {
  }

  lemma KeywordsOfOthers(s: Supply, defs: seq<Param>, k: nat, v: Value)
    requires s.args == [] && IsDict(s.kwargs) && 0 < k < |defs|
    requires IsValueOf([], Used(s, defs[0].name).kwargs, defs[1..], k - 1, v)
    ensures IsValueOf([], s.kwargs, defs, k, v)
  {
    var u, name := Used(s, defs[0].name).kwargs, defs[k].name;
    UsedKeywords(s, defs[0].name);
    NamedFromNext(defs, 0, k, name);
    assert defs[1..][k - 1] == defs[k];
    if !NamedFrom(defs, 0, k, name) {
      forall i | 0 <= i < |s.kwargs| && s.kwargs[i].name == name ensures v == s.kwargs[i].value {
        assert s.kwargs[i] in u;
        var j :| 0 <= j < |u| && u[j] == s.kwargs[i];
      }
      if forall i :: 0 <= i < |s.kwargs| ==> s.kwargs[i].name != name {
        forall j | 0 <= j < |u| ensures u[j].name != name {
          assert u[j] in s.kwargs;
        }
      }
    } else if defs[0].name == name {
      forall j | 0 <= j < |u| ensures u[j].name != name {
        assert u[j] in u;
      }
    }
  }

  /** What is left over: the arguments beyond the parameters, and the keywords that no parameter took. */
  ghost predicate IsLeftOver(args: seq<Value>, kwargs: seq<Keyword>, given: set<string>, defs: seq<Param>,
                             left: Supply)
  {
    && left.args == (if |args| <= |defs| then [] else args[|defs|..])
    && IsDict(left.kwargs)
    && (forall w :: w in left.kwargs <==> w in kwargs && !NamedFrom(defs, |args|, |defs|, w.name))
    && (forall n :: n in left.given <==>
          || n in given || NamedFrom(defs, 0, if |args| <= |defs| then |args| else |defs|, n)
          || (NamedFrom(defs, |args|, |defs|, n) && exists w :: w in kwargs && w.name == n))
  }

  lemma {:induction false} LeftoverInPlace(s: Supply, defs: seq<Param>)
    requires IsDict(s.kwargs)
    ensures IsLeftOver(s.args, s.kwargs, s.given, defs, Leftover(s, defs))
    decreases |defs|
  {
    if defs == [] {
      assert s.args[0..] == s.args;
    } else {
      var u := Used(s, defs[0].name);
      if s.args == [] {
        UsedKeywords(s, defs[0].name);
      }
      LeftoverInPlace(u, defs[1..]);
      LeftOverNext(s, defs, Leftover(s, defs));
    }
  }

  lemma LeftOverNext(s: Supply, defs: seq<Param>, left: Supply)
    requires IsDict(s.kwargs) && defs != []
    requires var u := Used(s, defs[0].name); IsLeftOver(u.args, u.kwargs, u.given, defs[1..], left)
    ensures IsLeftOver(s.args, s.kwargs, s.given, defs, left)
  {
    var u, rest, k := Used(s, defs[0].name), defs[1..], |defs|;
    if s.args == [] {
      UsedKeywords(s, defs[0].name);
    }
    forall n: string ensures NamedFrom(defs, |s.args|, k, n) <==>
                               (s.args == [] && defs[0].name == n) || NamedFrom(rest, |u.args|, k - 1, n)
    {
      NamedFromNext(defs, |s.args|, k, n);
    }
    var m := if |s.args| <= k then |s.args| else k;
    forall n: string ensures NamedFrom(defs, 0, m, n) <==>
                               (s.args != [] && defs[0].name == n) || NamedFrom(rest, 0, if m == 0 then 0 else m - 1, n)
    {
      if m > 0 {
        NamedFromNext(defs, 0, m, n);
      }
    }
  }

  /** What is listed keeps the order of the keywords. */
  ghost predicate InOrder(left: seq<Keyword>, kwargs: seq<Keyword>) {
    forall a, b, i, j ::
      0 <= a < b < |left| && 0 <= i < |kwargs| && 0 <= j < |kwargs| && left[a] == kwargs[i] && left[b] == kwargs[j] ==>
        i < j
  }

  lemma OnlyPlace(kwargs: seq<Keyword>, i: nat, j: nat)
    requires IsDict(kwargs) && i < |kwargs| && j < |kwargs| && kwargs[i] == kwargs[j]
    ensures i == j
  {
  }

  lemma UsedInOrder(s: Supply, name: string)
    requires IsDict(s.kwargs)
    ensures InOrder(Used(s, name).kwargs, s.kwargs)
  {
    var p, kwargs, left := Find(s.kwargs, name), s.kwargs, Used(s, name).kwargs;
    forall a, b, i, j | 0 <= a < b < |left| && 0 <= i < |kwargs| && 0 <= j < |kwargs| && left[a] == kwargs[i]
                        && left[b] == kwargs[j]
      ensures i < j
    {
      if left != kwargs {
        OnlyPlace(kwargs, i, if a < p then a else a + 1);
        OnlyPlace(kwargs, j, if b < p then b else b + 1);
      } else {
        OnlyPlace(kwargs, i, a);
        OnlyPlace(kwargs, j, b);
      }
    }
  }

  lemma {:induction false} LeftoverInOrder(s: Supply, defs: seq<Param>)
    requires IsDict(s.kwargs)
    ensures InOrder(Leftover(s, defs).kwargs, s.kwargs)
    decreases |defs|
  {
    if defs == [] {
      LeftInOrder(s.kwargs);
    } else {
      var u := Used(s, defs[0].name);
      if s.args == [] {
        UsedKeywords(s, defs[0].name);
      }
      UsedInOrder(s, defs[0].name);
      LeftoverInOrder(u, defs[1..]);
      LeftoverInPlace(u, defs[1..]);
      InOrderInTurn(Leftover(s, defs).kwargs, u.kwargs, s.kwargs);
    }
  }

  lemma LeftInOrder(kwargs: seq<Keyword>)
    requires IsDict(kwargs)
    ensures InOrder(kwargs, kwargs)
  {
  }

  lemma InOrderInTurn(a: seq<Keyword>, b: seq<Keyword>, c: seq<Keyword>)
    requires InOrder(a, b) && InOrder(b, c) && forall w :: w in a ==> w in b
    ensures InOrder(a, c)
  {
    forall x, y, i, j | 0 <= x < y < |a| && 0 <= i < |c| && 0 <= j < |c| && a[x] == c[i] && a[y] == c[j] ensures i < j {
      assert a[x] in a && a[y] in a;
      var k :| 0 <= k < |b| && b[k] == a[x];
      var m :| 0 <= m < |b| && b[m] == a[y];
      assert k < m;
    }
  }

  lemma {:induction false} ExpectedCallAt(defs: seq<Param>, values: seq<Value>, k: nat)
    requires |defs| == |values| && k < |defs|
    ensures ExpectedCalls(defs, values)[k] == Call(defs[k].name, UnderChoice(defs[k]), values[k])
  {
    if k > 0 {
      ExpectedCallAt(defs[1..], values[1..], k - 1);
    }
  }

  /** The k-th call of the external processor is for the k-th parameter, and carries the argument that goes to it. */
  lemma CallsCarryArguments(defs: seq<Param>, args: seq<Value>, kwargs: seq<Keyword>, strict: bool, k: nat)
    requires (forall i :: 0 <= i < |defs| ==> defs[i].ancestry != []) && IsDict(kwargs)
    requires k < |CallsMade(defs, args, kwargs, strict)|
    ensures k < |defs|
    ensures var c := CallsMade(defs, args, kwargs, strict)[k];
            && c.name == defs[k].name && (c.inChoice <==> UnderChoice(defs[k]))
            && IsValueOf(args, kwargs, defs, k, c.value)
  {
    var s := Supply(args, kwargs, {});
    ProcessAllIsRun(Begin(args, kwargs), strict, defs);
    var e := ExpectedCalls(defs, Values(s, defs));
    assert [] + e == e;
    ExpectedCallAt(defs, Values(s, defs), k);
    ValuesInPlace(s, defs, k);
  }

  /** The first of the keywords that no parameter took. */
  ghost predicate IsFirstUntaken(args: seq<Value>, kwargs: seq<Keyword>, defs: seq<Param>, i: nat) {
    && i < |kwargs| && !NamedFrom(defs, |args|, |defs|, kwargs[i].name)
    && forall j :: 0 <= j < i ==> NamedFrom(defs, |args|, |defs|, kwargs[j].name)
  }

  /**
   With extra errors on and no conflict, the first keyword that no parameter took is an error, which says whether its
   name belongs to a parameter that took a positional argument; without one, positional arguments may be too many.
   */
  lemma {:induction false} LeftoversAreReported(tops: seq<Tree>, defs: seq<Param>, args: seq<Value>,
                                                kwargs: seq<Keyword>)
    requires Describes(tops, defs, Values(Supply(args, kwargs, {}), defs)) && !AnyConflict(tops) && IsDict(kwargs)
    ensures forall i: nat :: IsFirstUntaken(args, kwargs, defs, i) ==>
              var name := kwargs[i].name;
              Parse(defs, args, kwargs, true) ==
                if NamedFrom(defs, 0, if |args| <= |defs| then |args| else |defs|, name) then RepeatedParameter(name)
                else UnexpectedKeyword(name)
    ensures (forall i :: 0 <= i < |kwargs| ==> NamedFrom(defs, |args|, |defs|, kwargs[i].name)) ==>
              Parse(defs, args, kwargs, true) ==
                if |args| > |defs| then TooManyPositional(SumRequired(tops), SumAllowed(tops), |args| + |kwargs|)
                else Counts(SumRequired(tops), SumAllowed(tops))
  {
    var s := Supply(args, kwargs, {});
    var left := Leftover(s, defs);
    ParseIsFold(tops, defs, args, kwargs, true);
    LeftoverInPlace(s, defs);
    LeftoverInOrder(s, defs);
    forall i: nat | IsFirstUntaken(args, kwargs, defs, i) ensures left.kwargs != [] && left.kwargs[0] == kwargs[i] {
      FirstUntakenLeads(left.kwargs, args, kwargs, defs, i);
    }
    if forall i :: 0 <= i < |kwargs| ==> NamedFrom(defs, |args|, |defs|, kwargs[i].name) {
      assert left.kwargs != [] ==> left.kwargs[0] in kwargs;
    }
  }

  lemma FirstUntakenLeads(left: seq<Keyword>, args: seq<Value>, kwargs: seq<Keyword>, defs: seq<Param>, i: nat)
    requires IsFirstUntaken(args, kwargs, defs, i) && InOrder(left, kwargs)
    requires forall w :: w in left <==> w in kwargs && !NamedFrom(defs, |args|, |defs|, w.name)
    ensures left != [] && left[0] == kwargs[i]
  {
    assert kwargs[i] in left;
    var a :| 0 <= a < |left| && left[a] == kwargs[i];
    assert left[0] in kwargs;
    var j :| 0 <= j < |kwargs| && kwargs[j] == left[0];
  }

  // ----- the objects -----

  lemma PopToStep(s: Stack, strict: bool, depth: nat)
    requires depth + 1 < |s|
    ensures PopTo(s, strict, depth) ==
              var p := PopTop(s, strict); if p.Conflicting? then Conflicting else PopTo(p.value, strict, depth)
  {
  }

  class FrameObject {
    const item: Option<Ancestor>
    var allowed: nat
    var required: nat
    var hasValue: bool
    var hasItem: bool

    constructor (item: Option<Ancestor>)
      ensures View() == NewFrame(item)
    {
      this.item := item;
      allowed, required, hasValue, hasItem := 0, 0, false, false;
    }

    function View(): Frame
      reads this
    {
      Frame(item, allowed, required, hasValue, hasItem)
    }

    method Take(strict: bool, itemHasValue: bool, itemAllowed: nat, itemRequired: nat) returns (ok: bool)
      modifies this
      ensures var r := ProcessItem(old(View()), strict, itemHasValue, itemAllowed, itemRequired);
              ok == r.Ok? && (ok ==> View() == r.value)
    {
      allowed := allowed + itemAllowed;
      if item.Some? && item.value.choice {
        if !hasItem {
          hasItem := true;
          required := itemRequired;
        } else {
          required := Min(required, itemRequired);
        }
        if itemHasValue {
          if hasValue && strict {
            return false;
          }
          hasValue := true;
        }
      } else {
        required := required + itemRequired;
        if itemHasValue {
          hasValue := true;
        }
      }
      return true;
    }
  }

  class Parser {
    const defs: seq<Param>
    var stack: seq<FrameObject>
    var args: seq<Value>
    var kwargs: seq<Keyword>
    var strict: bool
    var argsCount: nat
    var given: set<string>
    var calls: seq<Call>

    constructor (defs: seq<Param>)
      ensures this.defs == defs && stack == []
    {
      this.defs := defs;
      stack := [];
    }

    ghost predicate Distinct()
      reads this
    {
      Listings.Distinct(stack)
    }

    ghost function Views(): (r: Stack)
      reads this, stack
      ensures |r| == |stack|
    {
      seq(|stack|, i requires 0 <= i < |stack| reads this, stack => stack[i].View())
    }

    function CurrentSupply(): Supply
      reads this
    {
      Supply(args, kwargs, given)
    }

    method ParseArgs(args: seq<Value>, kwargs: seq<Keyword>, extraErrors: bool) returns (r: Outcome)
      requires stack == []
      modifies this
      ensures stack == [] && r == Parse(defs, args, kwargs, extraErrors)
      ensures calls == CallsMade(defs, args, kwargs, extraErrors)
    {
      StartWith(args, kwargs, extraErrors);
      var ok := ProcessParameters();
      if ok {
        r := AllParametersProcessed();
      } else {
        r := SeveralValuesForChoice;
      }
      stack := [];
    }

    method StartWith(args: seq<Value>, kwargs: seq<Keyword>, extraErrors: bool)
      modifies this
      ensures stack != [] && Distinct() && fresh(stack) && strict == extraErrors && argsCount == |args| + |kwargs|
      ensures State(Ok(Views()), CurrentSupply(), calls) == Begin(args, kwargs)
    {
      this.args, this.kwargs, strict := args, kwargs, extraErrors;
      argsCount, given, calls := |args| + |kwargs|, {}, [];
      var sentinel := new FrameObject(None);
      stack := [sentinel];
      assert Views() == START;
    }

    method AllParametersProcessed() returns (r: Outcome)
      requires stack != [] && Distinct()
      modifies `stack, stack
      ensures r == Finish(State(Ok(old(Views())), CurrentSupply(), calls), strict, argsCount)
    {
      var ok := PopFramesAbove(0);
      if ok {
        assert Views()[0] == stack[0].View();
        r := CheckForExtraArguments(stack[0].required, stack[0].allowed);
      } else {
        r := SeveralValuesForChoice;
      }
    }

    method ProcessParameters() returns (ok: bool)
      requires stack != [] && Distinct()
      modifies this, stack
      ensures var r := ProcessAll(State(Ok(old(Views())), old(CurrentSupply()), old(calls)), old(strict), defs);
              ok == r.stack.Ok? && calls == r.calls
              && (ok ==> stack != [] && Distinct() && Views() == r.stack.value && CurrentSupply() == r.supply)
      ensures strict == old(strict) && argsCount == old(argsCount)
      ensures fresh(set f | f in stack && f !in old(stack))
    {
      ghost var st := State(Ok(Views()), CurrentSupply(), calls);
      ghost var goal := ProcessAll(st, strict, defs);
      for k := 0 to |defs|
        invariant stack != [] && Distinct()
        invariant strict == old(strict) && argsCount == old(argsCount)
        invariant fresh(set f | f in stack && f !in old(stack))
        invariant ProcessAll(State(Ok(Views()), CurrentSupply(), calls), strict, defs[k..]) == goal
      {
        assert defs[k..][0] == defs[k] && defs[k..][1..] == defs[k + 1..];
        ok := ProcessParameter(defs[k]);
        if !ok {
          return false;
        }
      }
      assert defs[|defs|..] == [];
      ok := true;
    }

    method ProcessParameter(d: Param) returns (ok: bool)
      requires stack != [] && Distinct()
      modifies this, stack
      ensures var r := Process(State(Ok(old(Views())), old(CurrentSupply()), old(calls)), old(strict), d);
              ok == r.stack.Ok? && calls == r.calls && CurrentSupply() == r.supply
              && (ok ==> Views() == r.stack.value)
      ensures ok ==> stack != [] && Distinct()
      ensures strict == old(strict) && argsCount == old(argsCount)
      ensures fresh(set f | f in stack && f !in old(stack))
    {
      var value := GetParamValue(d.name);
      ok := EnterAndTake(d, value);
      assert CurrentSupply() == Used(old(CurrentSupply()), d.name);
      if ok {
        var inChoice := InChoiceContext();
        calls := calls + [Call(d.name, inChoice, value)];
      }
    }

    method EnterAndTake(d: Param, value: Value) returns (ok: bool)
      requires stack != [] && Distinct()
      modifies `stack, stack
      ensures var r := Step(old(Views()), strict, ItemOf(d, value));
              ok == r.Ok? && (ok ==> Views() == r.value)
      ensures stack != [] && Distinct()
      ensures fresh(set f | f in stack && f !in old(stack))
    {
      ok := UpdateContext(d.ancestry);
      if ok {
        ok := TakeIntoTop(value.Given?, 1, if d.optional then 0 else 1);
      }
    }

    method GetParamValue(name: string) returns (value: Value)
      modifies `args, `kwargs, `given
      ensures value == ValueFor(old(CurrentSupply()), name)
      ensures CurrentSupply() == Used(old(CurrentSupply()), name)
      ensures Views() == old(Views())
    {
      if args != [] {
        value := args[0];
        args := args[1..];
        given := given + {name};
      } else {
        var i := Find(kwargs, name);
        if i < |kwargs| {
          value := kwargs[i].value;
          kwargs := kwargs[..i] + kwargs[i + 1..];
          given := given + {name};
        } else {
          value := Absent;
        }
      }
    }

    method InChoiceContext() returns (r: bool)
      ensures r == InChoice(Views())
    {
      for i := 0 to |stack|
        invariant forall k :: 0 <= k < i ==> !IsChoice(Views()[k])
      {
        if stack[i].item.Some? && stack[i].item.value.choice {
          assert IsChoice(Views()[i]);
          return true;
        }
      }
      r := false;
    }

    method TakeIntoTop(hasValue: bool, allowed: nat, required: nat) returns (ok: bool)
      requires stack != [] && Distinct()
      modifies stack[|stack| - 1]
      ensures var r := IntoTop(old(Views()), strict, hasValue, allowed, required);
              ok == r.Ok? && (ok ==> Views() == r.value)
    {
      var top := stack[|stack| - 1];
      ghost var was := Views();
      ok := top.Take(strict, hasValue, allowed, required);
      if ok {
        var r := IntoTop(was, strict, hasValue, allowed, required);
        forall i | 0 <= i < |stack| ensures Views()[i] == r.value[i] {
          if i < |stack| - 1 {
            assert stack[i] != top;
          }
        }
      }
    }

    method MatchAncestry(ancestry: seq<Ancestor>) returns (n: nat)
      requires stack != []
      ensures n == Matching(Views(), ancestry, 0)
    {
      n := 0;
      while n + 1 < |stack| && n < |ancestry| && stack[n + 1].item == Some(ancestry[n])
        invariant n < |stack| && n <= |ancestry|
        invariant Matching(Views(), ancestry, n) == Matching(Views(), ancestry, 0)
      {
        n := n + 1;
      }
    }

    method PopFramesAbove(depth: nat) returns (ok: bool)
      requires depth < |stack| && Distinct()
      modifies `stack, stack
      ensures var r := PopTo(old(Views()), strict, depth);
              ok == r.Ok? && (ok ==> Views() == r.value)
      ensures Distinct() && stack != [] && forall f :: f in stack ==> f in old(stack)
    {
      ghost var whole, goal := stack, PopTo(Views(), strict, depth);
      while |stack| > depth + 1
        invariant Popping(whole, goal, depth)
        decreases |stack|
      {
        ok := PopOnce(whole, goal, depth);
        if !ok {
          return false;
        }
      }
      ok := true;
    }

    /** A start of the whole stack is left, and popping it goes on to the goal. */
    ghost predicate Popping(whole: seq<FrameObject>, goal: Result<Stack>, depth: nat)
      reads this, stack
    {
      && depth < |stack| <= |whole| && Distinct() && stack == whole[..|stack|]
      && PopTo(Views(), strict, depth) == goal
    }

    method PopOnce(ghost whole: seq<FrameObject>, ghost goal: Result<Stack>, depth: nat) returns (ok: bool)
      requires |stack| > depth + 1 && Popping(whole, goal, depth)
      modifies `stack, stack[|stack| - 2]
      ensures stack == old(stack)[..|old(stack)| - 1] && Distinct()
      ensures if ok then Popping(whole, goal, depth) else goal.Conflicting?
    {
      PopToStep(Views(), strict, depth);
      ghost var n := |stack|;
      assert whole[..n][..n - 1] == whole[..n - 1];
      ok := PopTopFrame();
    }

    method PopTopFrame() returns (ok: bool)
      requires |stack| > 1 && Distinct()
      modifies `stack, stack[|stack| - 2]
      ensures stack == old(stack)[..|old(stack)| - 1] && Distinct()
      ensures var r := PopTop(old(Views()), strict);
              ok == r.Ok? && (ok ==> Views() == r.value)
    {
      var popped := stack[|stack| - 1];
      ghost var was := Views();
      stack := stack[..|stack| - 1];
      assert Views() == was[..|was| - 1];
      ok := TakeIntoTop(popped.hasValue, popped.allowed, popped.required);
    }

    method PushFrames(ancestry: seq<Ancestor>)
      requires Distinct()
      modifies `stack
      ensures Distinct() && Views() == PushAll(old(Views()), ancestry)
      ensures fresh(set f | f in stack && f !in old(stack))
      ensures old(stack) <= stack
    {
      ghost var goal := PushAll(Views(), ancestry);
      for k := 0 to |ancestry|
        invariant Distinct() && old(stack) <= stack
        invariant fresh(set f | f in stack && f !in old(stack))
        invariant PushAll(Views(), ancestry[k..]) == goal
        invariant forall f :: f in stack ==> allocated(f)
      {
        ghost var was := Views();
        var frame := new FrameObject(Some(ancestry[k]));
        stack := stack + [frame];
        assert Views() == was + [NewFrame(Some(ancestry[k]))];
        assert ancestry[k..][1..] == ancestry[k + 1..];
      }
    }

    method UpdateContext(ancestry: seq<Ancestor>) returns (ok: bool)
      requires stack != [] && Distinct()
      modifies `stack, stack
      ensures var r := ArgumentFrames.UpdateContext(old(Views()), strict, ancestry);
              ok == r.Ok? && (ok ==> Views() == r.value)
      ensures Distinct() && stack != []
      ensures fresh(set f | f in stack && f !in old(stack))
    {
      if ancestry == [] {
        return true;
      }
      var n := MatchAncestry(ancestry);
      ok := PopFramesAbove(n);
      if ok {
        PushFrames(ancestry[n..]);
      }
    }

    method CheckForExtraArguments(required: nat, allowed: nat) returns (r: Outcome)
      ensures r == CheckExtra(strict, CurrentSupply(), required, allowed, argsCount)
      ensures r.Counts? <==> strict ==> args == [] && kwargs == []
      ensures r.RepeatedParameter? ==> r.name in given
      ensures r.RepeatedParameter? || r.UnexpectedKeyword? ==> strict && kwargs != [] && r.name == kwargs[0].name
      ensures r.TooManyPositional? ==> strict && kwargs == [] && args != [] && r.given == argsCount
    {
      if !strict {
        return Counts(required, allowed);
      }
      if kwargs != [] {
        var name := kwargs[0].name;
        if name in given {
          return RepeatedParameter(name);
        }
        return UnexpectedKeyword(name);
      }
      if args != [] {
        return TooManyPositional(required, allowed, argsCount);
      }
      r := Counts(required, allowed);
    }
  }
}
