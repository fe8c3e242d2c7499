/** Dicts and lists as mutable objects on the heap, each with the JSON value it stands for. */
module Nodes {
  import opened Json

  /** A scalar, or a reference to a dict or list. */
  datatype Cell = Leaf(v: Json) | Ref(node: Node)

  ghost function Model(c: Cell): Json
    reads if c.Ref? then {c.node} else {}
  {
    if c.Leaf? then c.v else c.node.model
  }

  ghost predicate Models(cs: seq<Cell>, vs: seq<Json>)
    reads set c | c in cs && c.Ref? :: c.node
  {
    |cs| == |vs| && forall i | 0 <= i < |cs| :: Model(cs[i]) == vs[i]
  }

  /** The cells are scalars or valid nodes within `r`, and no node is reachable from two of them. */
  ghost predicate Parts(cs: seq<Cell>, r: set<Node>)
    reads r
    decreases r, 1
  {
    && (forall i | 0 <= i < |cs| ::
          match cs[i]
          case Leaf(v) => !v.IsContainer()
          case Ref(n) => n in r && n.Repr <= r && n.Valid())
    && (forall i, j | 0 <= i < j < |cs| :: cs[i].Ref? && cs[j].Ref? ==> cs[i].node.Repr !! cs[j].node.Repr)
  }

  function Zip(keys: seq<string>, vs: seq<Json>): (es: seq<Entry>)
    requires |keys| == |vs|
    ensures |es| == |vs| && forall i | 0 <= i < |es| :: es[i] == Entry(keys[i], vs[i])
  {
    seq(|vs|, i requires 0 <= i < |vs| => Entry(keys[i], vs[i]))
  }

  /** A dict (`keys[i]` maps to `cells[i]`, in insertion order) or a list (no keys). */
  class Node {
    const isDict: bool
    var keys: seq<string>
    var cells: seq<Cell>
    ghost var model: Json
    ghost const Repr: set<Node>

    ghost predicate Valid()
      reads this, Repr
      decreases Repr, 0
    {
      && this in Repr
      && Parts(cells, Repr - {this})
      && (if isDict
          then model.Obj? && keys == KeysOf(model.entries) && DistinctKeys(model.entries)
              && Models(cells, Values(model.entries))
          else model.Arr? && keys == [] && Models(cells, model.items))
    }

    constructor (isDict: bool, keys: seq<string>, cells: seq<Cell>, ghost model: Json, ghost parts: set<Node>)
      requires Parts(cells, parts)
      requires if isDict then model.Obj? && keys == KeysOf(model.entries) && DistinctKeys(model.entries)
          && Models(cells, Values(model.entries))
               else model.Arr? && keys == [] && Models(cells, model.items)
      ensures Valid() && fresh(Repr - parts) && this.model == model && this.isDict == isDict
    {
      this.isDict, this.keys, this.cells, this.model := isDict, keys, cells, model;
      this.Repr := {this} + parts;
      new;
      assert Repr - {this} == parts;
    }
  }

  function KeysOf(entries: seq<Entry>): (ks: seq<string>)
    ensures |ks| == |entries|
    ensures forall i | 0 <= i < |ks| :: ks[i] == entries[i].key
  {
    seq(|entries|, i requires 0 <= i < |entries| => entries[i].key)
  }
}
