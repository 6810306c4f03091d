/**
 Parameter definitions as the choice/sequence tree they were flattened from, and the
 recursive account of how many arguments such a tree takes (argparser.py).
 */
module ArgumentTree {
  import opened Options

  /** An XSD tag among a parameter's ancestors. The source compares tags by address, here their id. */
  datatype Ancestor = Ancestor(id: nat, choice: bool)

  /** What a parameter contributes: its optionality, and whether its value is other than None. */
  datatype Tree = Leaf(optional: bool, hasValue: bool) | Group(item: Ancestor, kids: seq<Tree>)

  /** A parameter as the parser meets it. */
  datatype Item = Item(optional: bool, hasValue: bool, ancestry: seq<Ancestor>)

  function Flatten(t: Tree, path: seq<Ancestor>): seq<Item> {
    match t
    case Leaf(optional, hasValue) => [Item(optional, hasValue, path)]
    case Group(item, kids) => FlattenAll(kids, path + [item])
  }

  function FlattenAll(ts: seq<Tree>, path: seq<Ancestor>): seq<Item> {
    if ts == [] then [] else Flatten(ts[0], path) + FlattenAll(ts[1..], path)
  }

  /** Groups hold something, and siblings are different tags. */
  ghost predicate WellFormed(t: Tree) {
    t.Leaf? || (t.kids != [] && AllWellFormed(t.kids))
  }

  ghost predicate AllWellFormed(ts: seq<Tree>) {
    ts == [] || (WellFormed(ts[0]) && AllWellFormed(ts[1..]) && FreshAmong(ts[0], ts[1..]))
  }

  ghost predicate FreshAmong(t: Tree, ts: seq<Tree>) {
    t.Group? ==> forall i :: 0 <= i < |ts| && ts[i].Group? ==> ts[i].item != t.item
  }

  // ----- the recursive account -----

  function Allowed(t: Tree): nat {
    if t.Leaf? then 1 else SumAllowed(t.kids)
  }

  function SumAllowed(ts: seq<Tree>): nat {
    if ts == [] then 0 else Allowed(ts[0]) + SumAllowed(ts[1..])
  }

  function Required(t: Tree): nat {
    match t
    case Leaf(optional, _) => if optional then 0 else 1
    case Group(item, kids) => if item.choice then LeastRequired(kids) else SumRequired(kids)
  }

  function SumRequired(ts: seq<Tree>): nat {
    if ts == [] then 0 else Required(ts[0]) + SumRequired(ts[1..])
  }

  function LeastRequired(ts: seq<Tree>): nat {
    if ts == [] then 0
    else if |ts| == 1 then Required(ts[0])
    else Min(Required(ts[0]), LeastRequired(ts[1..]))
  }

  function Min(a: nat, b: nat): nat {
    if a <= b then a else b
  }

  predicate Valued(t: Tree) {
    if t.Leaf? then t.hasValue else AnyValued(t.kids)
  }

  predicate AnyValued(ts: seq<Tree>) {
    ts != [] && (Valued(ts[0]) || AnyValued(ts[1..]))
  }

  /** Some choice in the tree has two direct items with values. */
  ghost predicate Conflict(t: Tree) {
    t.Group? && (AnyConflict(t.kids) || (t.item.choice && TwoValued(t.kids)))
  }

  ghost predicate AnyConflict(ts: seq<Tree>) {
    ts != [] && (Conflict(ts[0]) || AnyConflict(ts[1..]))
  }

  ghost predicate TwoValued(ts: seq<Tree>) {
    exists i, j :: 0 <= i < j < |ts| && Valued(ts[i]) && Valued(ts[j])
  }

  /** The least requirement is that of some item, and no item requires less. */
  lemma {:induction false} LeastRequiredIsMinimum(ts: seq<Tree>)
    requires ts != []
    ensures forall i :: 0 <= i < |ts| ==> LeastRequired(ts) <= Required(ts[i])
    ensures exists i :: 0 <= i < |ts| && LeastRequired(ts) == Required(ts[i])
  {
    if |ts| > 1 {
      LeastRequiredIsMinimum(ts[1..]);
      var i :| 0 <= i < |ts[1..]| && LeastRequired(ts[1..]) == Required(ts[1..][i]);
      assert ts[i + 1] == ts[1..][i];
      assert forall k :: 1 <= k < |ts| ==> ts[k] == ts[1..][k - 1];
    }
  }
}
