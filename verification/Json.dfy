/** JSON-shaped Python values. */
module Json {

  /** An object is its entries in insertion order. A
      non-integer number is its `repr`. */
  datatype Json =
    | Null
    | Bool(b: bool)
    | Int(n: int)
    | Float(literal: string)
    | Str(s: string)
    | Arr(items: seq<Json>)
    | Obj(entries: seq<Entry>)
  {
    predicate IsContainer() {
      Arr? || Obj?
    }

    /** The children a traversal visits, in order. */
    function Children(): (c: seq<Json>)
      requires IsContainer()
      ensures |c| == if Arr? then |items| else |entries|
      ensures forall i | 0 <= i < |c| :: c[i] == if Arr? then items[i] else entries[i].val
      ensures forall i | 0 <= i < |c| :: c[i] < this
    {
      if Arr? then items else Values(entries)
    }
  }

  datatype Entry = Entry(key: string, val: Json)

  function Values(entries: seq<Entry>): (vs: seq<Json>)
    ensures |vs| == |entries|
    ensures forall i | 0 <= i < |vs| :: vs[i] == entries[i].val
  {
    seq(|entries|, i requires 0 <= i < |entries| => entries[i].val)
  }

  predicate DistinctKeys(entries: seq<Entry>) {
    forall i, j | 0 <= i < j < |entries| :: entries[i].key != entries[j].key
  }

  /** Every object, at any depth, has each key once. */
  predicate WellFormed(v: Json) {
    && (v.Obj? ==> DistinctKeys(v.entries))
    && (v.IsContainer() ==> forall i | 0 <= i < |v.Children()| :: WellFormed(v.Children()[i]))
  }

  /** Number of containers on the longest chain of nested containers. */
  function ContainerDepth(v: Json): nat
    decreases v, 1, 0
  {
    if v.IsContainer() then 1 + DeepestOf(v, v.Children()) else 0
  }

  function DeepestOf(ghost parent: Json, children: seq<Json>): (d: nat)
    requires forall i | 0 <= i < |children| :: children[i] < parent
    ensures forall i | 0 <= i < |children| :: ContainerDepth(children[i]) <= d
    ensures d == 0 || exists i | 0 <= i < |children| :: d == ContainerDepth(children[i])
    decreases parent, 0, |children|
  {
    if children == [] then 0
    else
      var here := ContainerDepth(children[0]);
      var rest := DeepestOf(parent, children[1..]);
      assert forall i | 1 <= i < |children| :: children[i] == children[1..][i - 1];
      if here > rest then here else rest
  }

  /** `d.get(key, default)` */
  function Get(entries: seq<Entry>, key: string, default: Json): Json {
    if entries == [] then default
    else if entries[0].key == key then entries[0].val
    else Get(entries[1..], key, default)
  }

  predicate HasKey(entries: seq<Entry>, key: string) {
    exists i | 0 <= i < |entries| :: entries[i].key == key
  }

  /** `get` answers the value of the first entry with the key, and the default when there is none. */
  lemma {:induction false} GetAnswers(entries: seq<Entry>, key: string, default: Json)
    ensures HasKey(entries, key) ==>
      exists i | 0 <= i < |entries| :: FirstAt(entries, key, i) && Get(entries, key, default) == entries[i].val
    ensures !HasKey(entries, key) ==> Get(entries, key, default) == default
    decreases |entries|
  {
    if entries != [] {
      if entries[0].key == key {
        assert FirstAt(entries, key, 0);
      } else {
        var rest := entries[1..];
        GetAnswers(rest, key, default);
        if HasKey(entries, key) {
          var k :| 0 <= k < |entries| && entries[k].key == key;
          assert rest[k - 1].key == key;
          var i :| 0 <= i < |rest| && FirstAt(rest, key, i) && Get(rest, key, default) == rest[i].val;
          assert FirstAt(entries, key, i + 1);
        }
      }
    }
  }

  predicate FirstAt(entries: seq<Entry>, key: string, i: nat)
    requires i < |entries|
  {
    entries[i].key == key && forall j | 0 <= j < i :: entries[j].key != key
  }

  lemma DefaultIsForAbsentKeys(entries: seq<Entry>, key: string, one: Json, other: Json)
    ensures HasKey(entries, key) ==> Get(entries, key, one) == Get(entries, key, other)
    ensures !HasKey(entries, key) ==> Get(entries, key, one) == one
  {
    hide Get;
    GetAnswers(entries, key, one);
    GetAnswers(entries, key, other);
  }

  /** Python truth value. */
  predicate Truthy(v: Json) {
    match v
    case Null => false
    case Bool(b) => b
    case Int(n) => n != 0
    case Float(literal) => literal != "0.0" && literal != "-0.0"
    case Str(s) => s != ""
    case Arr(items) => items != []
    case Obj(entries) => entries != []
  }

  /** `v or {}` */
  function OrEmpty(v: Json): Json {
    if Truthy(v) then v else Obj([])
  }
}
