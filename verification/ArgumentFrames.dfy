/**
 The frame stack of argparser.py as a function of the flattened parameters, and the proof
 that it computes the recursive account of the tree they came from.
 */
module ArgumentFrames {
  import opened Options
  import opened ArgumentTree

  datatype Result<+T> = Ok(value: T) | Conflicting

  /** The sentinel frame has no item. */
  datatype Frame = Frame(item: Option<Ancestor>, allowed: nat, required: nat, hasValue: bool, hasItem: bool)

  type Stack = seq<Frame>

  function NewFrame(item: Option<Ancestor>): Frame {
    Frame(item, 0, 0, false, false)
  }

  predicate IsChoice(f: Frame) {
    f.item.Some? && f.item.value.choice
  }

  function ProcessItem(f: Frame, strict: bool, hasValue: bool, allowed: nat, required: nat): Result<Frame> {
    if IsChoice(f) then
      if strict && hasValue && f.hasValue then Conflicting
      else
        var r := if f.hasItem then Min(f.required, required) else required;
        Ok(Frame(f.item, f.allowed + allowed, r, f.hasValue || hasValue, true))
    else
      Ok(f.(allowed := f.allowed + allowed, required := f.required + required, hasValue := f.hasValue || hasValue))
  }

  /** Replaces the top frame by what becomes of it when it takes in one more item. */
  function IntoTop(s: Stack, strict: bool, hasValue: bool, allowed: nat, required: nat): (r: Result<Stack>)
    requires s != []
    ensures r.Ok? ==> |r.value| == |s| && r.value[..|s| - 1] == s[..|s| - 1]
    ensures r.Ok? ==> r.value[|s| - 1].item == s[|s| - 1].item
  {
    var top := ProcessItem(s[|s| - 1], strict, hasValue, allowed, required);
    if top.Conflicting? then Conflicting else Ok(s[..|s| - 1] + [top.value])
  }

  function PopTop(s: Stack, strict: bool): Result<Stack>
    requires |s| > 1
  {
    var f := s[|s| - 1];
    IntoTop(s[..|s| - 1], strict, f.hasValue, f.allowed, f.required)
  }

  /** Pops until depth frames are left above the sentinel. */
  function PopTo(s: Stack, strict: bool, depth: nat): (r: Result<Stack>)
    requires depth < |s|
    ensures r.Ok? ==> |r.value| == depth + 1 && r.value[..depth] == s[..depth]
    ensures r.Ok? ==> r.value[depth].item == s[depth].item
    decreases |s|
  {
    if |s| == depth + 1 then
      assert s[..depth + 1] == s;
      Ok(s)
    else
      var p := PopTop(s, strict);
      if p.Conflicting? then Conflicting
      else
        assert p.value[..depth] == s[..depth] by {
          assert p.value[..|s| - 2] == s[..|s| - 1][..|s| - 2];
          assert p.value[..depth] == p.value[..|s| - 2][..depth];
        }
        assert p.value[depth].item == s[depth].item by {
          if depth < |s| - 2 {
            assert p.value[..|s| - 2][depth] == s[..|s| - 1][depth];
          }
        }
        PopTo(p.value, strict, depth)
  }

  /** How many frames above the sentinel stand for the start of the ancestry. */
  function Matching(s: Stack, ancestry: seq<Ancestor>, from: nat): (n: nat)
    requires s != [] && from < |s| && from <= |ancestry|
    ensures from <= n < |s| && n <= |ancestry|
    decreases |s| - from
  {
    if from + 1 < |s| && from < |ancestry| && SameTag(s[from + 1], ancestry[from]) then
      Matching(s, ancestry, from + 1)
    else from
  }

  predicate SameTag(f: Frame, a: Ancestor) {
    f.item == Some(a)
  }

  function PushAll(s: Stack, items: seq<Ancestor>): (r: Stack)
    ensures |r| == |s| + |items| && r[..|s|] == s
    decreases |items|
  {
    if items == [] then s else PushAll(s + [NewFrame(Some(items[0]))], items[1..])
  }

  function UpdateContext(s: Stack, strict: bool, ancestry: seq<Ancestor>): (r: Result<Stack>)
    requires s != []
    ensures r.Ok? ==> r.value != []
  {
    if ancestry == [] then Ok(s)
    else
      var n := Matching(s, ancestry, 0);
      var p := PopTo(s, strict, n);
      if p.Conflicting? then Conflicting else Ok(PushAll(p.value, ancestry[n..]))
  }

  function Step(s: Stack, strict: bool, it: Item): (r: Result<Stack>)
    requires s != []
    ensures r.Ok? ==> r.value != []
  {
    var c := UpdateContext(s, strict, it.ancestry);
    if c.Conflicting? then Conflicting
    else IntoTop(c.value, strict, it.hasValue, 1, if it.optional then 0 else 1)
  }

  function Run(s: Stack, strict: bool, items: seq<Item>): (r: Result<Stack>)
    requires s != []
    ensures r.Ok? ==> r.value != []
    decreases |items|
  {
    if items == [] then Ok(s)
    else
      var n := Step(s, strict, items[0]);
      if n.Conflicting? then Conflicting else Run(n.value, strict, items[1..])
  }

  // ----- what a frame becomes when it takes in whole trees -----

  ghost function TakeTree(f: Frame, strict: bool, t: Tree): Result<Frame> {
    if strict && Conflict(t) then Conflicting
    else ProcessItem(f, strict, Valued(t), Allowed(t), Required(t))
  }

  ghost function TakeTrees(f: Frame, strict: bool, ts: seq<Tree>): Result<Frame>
    decreases |ts|
  {
    if ts == [] then Ok(f)
    else
      var n := TakeTree(f, strict, ts[0]);
      if n.Conflicting? then Conflicting else TakeTrees(n.value, strict, ts[1..])
  }

  ghost predicate Clashes(f: Frame, ts: seq<Tree>) {
    AnyConflict(ts) || (IsChoice(f) && (TwoValued(ts) || (f.hasValue && AnyValued(ts))))
  }

  ghost function Totals(f: Frame, ts: seq<Tree>): Frame {
    if ts == [] then f
    else if IsChoice(f) then
      Frame(f.item, f.allowed + SumAllowed(ts),
            if f.hasItem then Min(f.required, LeastRequired(ts)) else LeastRequired(ts),
            f.hasValue || AnyValued(ts), true)
    else
      Frame(f.item, f.allowed + SumAllowed(ts), f.required + SumRequired(ts),
            f.hasValue || AnyValued(ts), f.hasItem)
  }

  lemma {:induction false} AnyValuedIsExists(ts: seq<Tree>)
    ensures AnyValued(ts) <==> exists i :: 0 <= i < |ts| && Valued(ts[i])
  {
    if ts != [] {
      AnyValuedIsExists(ts[1..]);
      assert forall i :: 1 <= i < |ts| ==> ts[i] == ts[1..][i - 1];
    }
  }

  lemma TwoValuedSplit(ts: seq<Tree>)
    requires ts != []
    ensures TwoValued(ts) <==> TwoValued(ts[1..]) || (Valued(ts[0]) && AnyValued(ts[1..]))
  {
    AnyValuedIsExists(ts[1..]);
    assert forall i :: 1 <= i < |ts| ==> ts[i] == ts[1..][i - 1];
    if TwoValued(ts[1..]) {
      var i, j :| 0 <= i < j < |ts[1..]| && Valued(ts[1..][i]) && Valued(ts[1..][j]);
      assert Valued(ts[i + 1]) && Valued(ts[j + 1]);
    }
    if Valued(ts[0]) && AnyValued(ts[1..]) {
      var j :| 0 <= j < |ts[1..]| && Valued(ts[1..][j]);
      assert Valued(ts[j + 1]);
    }
  }

  /** Taking in trees one by one clashes exactly when it should, and otherwise totals them. */
  lemma {:induction false} TakeTreesIsTotals(f: Frame, strict: bool, ts: seq<Tree>)
    ensures TakeTrees(f, strict, ts) ==
              if strict && Clashes(f, ts) then Conflicting else Ok(Totals(f, ts))
    decreases |ts|
  {
    if ts != [] {
      var n := TakeTree(f, strict, ts[0]);
      TwoValuedSplit(ts);
      if n.Ok? {
        TakeTreesIsTotals(n.value, strict, ts[1..]);
        TotalsSplit(f, n.value, ts);
        if strict {
          assert Clashes(f, ts) <==> Clashes(n.value, ts[1..]);
        }
      } else {
        assert strict && Clashes(f, ts);
      }
    }
  }

  lemma TotalsSplit(f: Frame, n: Frame, ts: seq<Tree>)
    requires ts != [] && TakeTree(f, false, ts[0]) == Ok(n)
    ensures Totals(n, ts[1..]) == Totals(f, ts)
  {
    assert SumAllowed(ts) == Allowed(ts[0]) + SumAllowed(ts[1..]);
    assert SumRequired(ts) == Required(ts[0]) + SumRequired(ts[1..]);
    assert AnyValued(ts) == (Valued(ts[0]) || AnyValued(ts[1..]));
    if |ts| == 1 {
      assert ts[1..] == [];
    }
  }

  /** What a group's own frame holds once its items are in. */
  lemma GroupFrame(t: Tree, strict: bool)
    requires t.Group? && t.kids != []
    ensures var r := TakeTrees(NewFrame(Some(t.item)), strict, t.kids);
            if strict && Conflict(t) then r.Conflicting?
            else r.Ok? && r.value.item == Some(t.item) && r.value.allowed == Allowed(t)
                 && r.value.required == Required(t) && r.value.hasValue == Valued(t)
  {
    TakeTreesIsTotals(NewFrame(Some(t.item)), strict, t.kids);
  }

  // ----- the stack while the parameters of trees go by -----

  ghost predicate Open(s: Stack, path: seq<Ancestor>) {
    |path| < |s| && forall i :: 0 <= i < |path| ==> s[i + 1].item == Some(path[i])
  }

  /** The frame just above depth does not stand for t. */
  ghost predicate Clear(s: Stack, depth: nat, t: Tree) {
    t.Group? && depth + 1 < |s| ==> !SameTag(s[depth + 1], t.item)
  }

  ghost function WithTop(s: Stack, top: Result<Frame>): Result<Stack>
    requires s != []
  {
    if top.Conflicting? then Conflicting else Ok(s[..|s| - 1] + [top.value])
  }

  /** Closing s down to depth and then taking the trees into the top frame. */
  ghost function CloseAndTake(s: Stack, strict: bool, depth: nat, ts: seq<Tree>): Result<Stack>
    requires depth < |s|
  {
    var c := PopTo(s, strict, depth);
    if c.Conflicting? then Conflicting else WithTop(c.value, TakeTrees(c.value[depth], strict, ts))
  }

  /** Outcome r, closed down to the depth of path, is want; until then frames may be left open. */
  ghost predicate Closes(r: Result<Stack>, strict: bool, path: seq<Ancestor>, want: Result<Stack>) {
    if r.Conflicting? then want.Conflicting?
    else Open(r.value, path) && PopTo(r.value, strict, |path|) == want
  }

  lemma {:induction false} RunConcat(s: Stack, strict: bool, a: seq<Item>, b: seq<Item>)
    requires s != []
    ensures Run(s, strict, a + b) ==
              var r := Run(s, strict, a); if r.Conflicting? then Conflicting else Run(r.value, strict, b)
    decreases |a|
  {
    if a == [] {
      assert a + b == b;
    } else {
      assert (a + b)[1..] == a[1..] + b;
      var n := Step(s, strict, a[0]);
      if n.Ok? {
        RunConcat(n.value, strict, a[1..], b);
      }
    }
  }

  lemma {:induction false} MatchingIs(s: Stack, ancestry: seq<Ancestor>, from: nat, n: nat)
    requires from <= n < |s| && n <= |ancestry|
    requires forall i :: from <= i < n ==> SameTag(s[i + 1], ancestry[i])
    requires n + 1 < |s| && n < |ancestry| ==> !SameTag(s[n + 1], ancestry[n])
    ensures Matching(s, ancestry, from) == n
    decreases n - from
  {
    if from < n {
      MatchingIs(s, ancestry, from + 1, n);
    }
  }

  lemma {:induction false} PopToTwice(s: Stack, strict: bool, high: nat, low: nat)
    requires low <= high < |s|
    ensures PopTo(s, strict, low) ==
              var r := PopTo(s, strict, high); if r.Conflicting? then Conflicting else PopTo(r.value, strict, low)
    decreases |s|
  {
    if high + 1 < |s| {
      var p := PopTop(s, strict);
      if p.Ok? {
        PopToTwice(p.value, strict, high, low);
      }
    }
  }

  /** The first parameter of a group closes down to the group's parent and opens the group. */
  lemma EnterGroup(s: Stack, strict: bool, path: seq<Ancestor>, g: Ancestor, it: Item)
    requires Open(s, path) && (|path| + 1 < |s| ==> !SameTag(s[|path| + 1], g))
    requires path + [g] <= it.ancestry
    ensures Step(s, strict, it) ==
              var c := PopTo(s, strict, |path|);
              if c.Conflicting? then Conflicting else Step(c.value + [NewFrame(Some(g))], strict, it)
  {
    var d := |path|;
    var anc := it.ancestry;
    PrefixItems(path, g, anc);
    MatchingIs(s, anc, 0, d);
    var c := PopTo(s, strict, d);
    if c.Ok? {
      var s1 := c.value + [NewFrame(Some(g))];
      OpenGroup(s, c.value, path, g);
      forall i | 0 <= i < d + 1 ensures SameTag(s1[i + 1], anc[i]) {
        assert s1[i + 1].item == Some((path + [g])[i]);
      }
      MatchingIs(s1, anc, 0, d + 1);
      assert PushAll(c.value, anc[d..]) == PushAll(s1, anc[d + 1..]) by {
        assert anc[d..][1..] == anc[d + 1..];
      }
    }
  }

  lemma PrefixItems(path: seq<Ancestor>, g: Ancestor, anc: seq<Ancestor>)
    requires path + [g] <= anc
    ensures anc[|path|] == g
    ensures forall i :: 0 <= i < |path| ==> anc[i] == path[i]
    ensures forall i :: 0 <= i < |path| + 1 ==> anc[i] == (path + [g])[i]
  {
    assert anc[..|path| + 1] == path + [g];
    assert forall i :: 0 <= i < |path| + 1 ==> anc[i] == anc[..|path| + 1][i];
  }

  lemma {:induction false} FlattenedAncestry(t: Tree, path: seq<Ancestor>)
    requires WellFormed(t)
    ensures Flatten(t, path) != [] && path <= Flatten(t, path)[0].ancestry
    ensures t.Group? ==> path + [t.item] <= Flatten(t, path)[0].ancestry
    decreases t
  {
    if t.Group? {
      FlattenedAncestry(t.kids[0], path + [t.item]);
      assert path <= path + [t.item];
    }
  }

  lemma {:induction false} TreeRun(s: Stack, strict: bool, path: seq<Ancestor>, t: Tree)
    requires Open(s, path) && Clear(s, |path|, t) && WellFormed(t) && (path != [] || t.Group?)
    ensures var r := Run(s, strict, Flatten(t, path));
            && Closes(r, strict, path, CloseAndTake(s, strict, |path|, [t]))
            && (r.Ok? && |r.value| > |path| + 1 ==> t.Group? && r.value[|path| + 1].item == Some(t.item))
    decreases t, 1
  {
    if t.Leaf? {
      LeafRun(s, strict, path, t);
    } else {
      GroupRun(s, strict, path, t);
    }
  }

  lemma TakeOne(f: Frame, strict: bool, t: Tree)
    ensures TakeTrees(f, strict, [t]) == TakeTree(f, strict, t)
  {
    assert [t][1..] == [];
  }

  lemma KeepsOpen(s: Stack, c: Stack, path: seq<Ancestor>)
    requires Open(s, path) && |c| == |path| + 1 && c[..|path|] == s[..|path|]
    requires c[|path|].item == s[|path|].item
    ensures Open(c, path)
  {
    forall i | 0 <= i < |path| ensures c[i + 1].item == Some(path[i]) {
      if i + 1 < |path| {
        assert c[..|path|][i + 1] == s[..|path|][i + 1];
      }
    }
  }

  lemma LeafRun(s: Stack, strict: bool, path: seq<Ancestor>, t: Tree)
    requires Open(s, path) && t.Leaf? && path != []
    ensures var r := Run(s, strict, Flatten(t, path));
            && Closes(r, strict, path, CloseAndTake(s, strict, |path|, [t]))
            && (r.Ok? ==> |r.value| == |path| + 1)
  {
    MatchingIs(s, path, 0, |path|);
    var c := PopTo(s, strict, |path|);
    if c.Ok? {
      TakeOne(c.value[|path|], strict, t);
      var it := Item(t.optional, t.hasValue, path);
      assert path[|path|..] == [] && UpdateContext(s, strict, path) == c;
      KeepsOpen(s, c.value, path);
      var r := Step(s, strict, it);
      assert [it][1..] == [] && Run(s, strict, [it]) == r;
      if r.Ok? {
        assert |c.value| == |path| + 1;
        KeepsOpen(c.value, r.value, path);
      }
    }
  }

  lemma {:induction false} GroupRun(s: Stack, strict: bool, path: seq<Ancestor>, t: Tree)
    requires Open(s, path) && Clear(s, |path|, t) && WellFormed(t) && t.Group?
    ensures var r := Run(s, strict, Flatten(t, path));
            && Closes(r, strict, path, CloseAndTake(s, strict, |path|, [t]))
            && (r.Ok? && |r.value| > |path| + 1 ==> r.value[|path| + 1].item == Some(t.item))
    decreases t, 0
  {
    var d := |path|;
    var items := Flatten(t, path);
    FlattenedAncestry(t, path);
    EnterGroup(s, strict, path, t.item, items[0]);
    var c := PopTo(s, strict, d);
    if c.Ok? {
      var s1 := c.value + [NewFrame(Some(t.item))];
      OpenGroup(s, c.value, path, t.item);
      TreesRun(s1, strict, path + [t.item], t.kids);
      LeaveGroup(s1, strict, path, t, Run(s1, strict, items));
    }
  }

  lemma OpenGroup(s: Stack, c: Stack, path: seq<Ancestor>, g: Ancestor)
    requires Open(s, path) && |c| == |path| + 1 && c[..|path|] == s[..|path|]
    requires c[|path|].item == s[|path|].item
    ensures Open(c + [NewFrame(Some(g))], path + [g])
  {
    var s1 := c + [NewFrame(Some(g))];
    forall i | 0 <= i < |path| + 1 ensures s1[i + 1].item == Some((path + [g])[i]) {
      if i + 1 < |path| {
        assert c[..|path|][i + 1] == s[..|path|][i + 1];
      }
    }
  }

  lemma LeaveGroup(s1: Stack, strict: bool, path: seq<Ancestor>, t: Tree, r: Result<Stack>)
    requires t.Group? && WellFormed(t) && |s1| == |path| + 2 && s1[|path| + 1] == NewFrame(Some(t.item))
    requires Closes(r, strict, path + [t.item], CloseAndTake(s1, strict, |path| + 1, t.kids))
    ensures Closes(r, strict, path, WithTop(s1[..|path| + 1], TakeTrees(s1[|path|], strict, [t])))
    ensures r.Ok? ==> |r.value| > |path| + 1 && r.value[|path| + 1].item == Some(t.item)
  {
    var d := |path|;
    GroupFrame(t, strict);
    TakeOne(s1[d], strict, t);
    if r.Ok? {
      assert (path + [t.item])[d] == t.item;
      assert forall i :: 0 <= i < d ==> (path + [t.item])[i] == path[i];
      PopToTwice(r.value, strict, d + 1, d);
      var c := PopTo(r.value, strict, d + 1);
      if c.Ok? {
        PopToOnce(c.value, strict, d);
      }
    }
  }

  lemma PopToOnce(s: Stack, strict: bool, depth: nat)
    requires |s| == depth + 2
    ensures PopTo(s, strict, depth) == PopTop(s, strict)
  {
  }

  lemma {:induction false} TreesRun(s: Stack, strict: bool, path: seq<Ancestor>, ts: seq<Tree>)
    requires Open(s, path) && AllWellFormed(ts)
    requires forall i :: 0 <= i < |ts| ==> Clear(s, |path|, ts[i]) && (path != [] || ts[i].Group?)
    ensures Closes(Run(s, strict, FlattenAll(ts, path)), strict, path, CloseAndTake(s, strict, |path|, ts))
    decreases ts, 0
  {
    if ts == [] {
      var c := PopTo(s, strict, |path|);
      assert c.Ok? ==> c.value == c.value[..|path|] + [c.value[|path|]];
    } else {
      var first := Flatten(ts[0], path);
      RunConcat(s, strict, first, FlattenAll(ts[1..], path));
      TreeRun(s, strict, path, ts[0]);
      var r := Run(s, strict, first);
      assert ts[..1] == [ts[0]];
      SplitTake(s, strict, path, ts, r);
      if r.Ok? {
        TreesRun(r.value, strict, path, ts[1..]);
      }
    }
  }

  /** Taking the first tree and then the rest is taking all of them. */
  lemma SplitTake(s: Stack, strict: bool, path: seq<Ancestor>, ts: seq<Tree>, r: Result<Stack>)
    requires ts != [] && Open(s, path)
    requires Closes(r, strict, path, CloseAndTake(s, strict, |path|, ts[..1]))
    ensures if r.Conflicting? then CloseAndTake(s, strict, |path|, ts).Conflicting?
            else CloseAndTake(r.value, strict, |path|, ts[1..]) == CloseAndTake(s, strict, |path|, ts)
  {
    var c := PopTo(s, strict, |path|);
    if c.Ok? {
      assert ts[..1] == [ts[0]];
      TakeOne(c.value[|path|], strict, ts[0]);
    }
  }

  const START: Stack := [NewFrame(None)]

  /** Running the stack over a flattened tree gives the recursive account of the tree. */
  lemma RunIsFold(strict: bool, tops: seq<Tree>)
    requires AllWellFormed(tops) && forall i :: 0 <= i < |tops| ==> tops[i].Group?
    ensures var r := Run(START, strict, FlattenAll(tops, []));
            if strict && AnyConflict(tops) then
              r.Conflicting? || PopTo(r.value, strict, 0).Conflicting?
            else
              && r.Ok? && PopTo(r.value, strict, 0).Ok?
              && var f := PopTo(r.value, strict, 0).value[0];
                 f.required == SumRequired(tops) && f.allowed == SumAllowed(tops)
  {
    TreesRun(START, strict, [], tops);
    TakeTreesIsTotals(START[0], strict, tops);
  }
}
