/** The scrubber as it runs: one deep copy, then dicts and lists changed in place. */
module ScrubInPlace {
  import opened Text
  import opened Json
  import opened ScrubWalk
  import opened Nodes
  import opened DepthGuard
  import Shapes = CredentialShapes

  /** A count, or `DepthLimitExceeded` was raised. */
  datatype Tally = Removed(n: nat) | TooDeep

  function Without<T>(s: seq<T>, j: nat): seq<T>
    requires j < |s|
  {
    s[..j] + s[j + 1..]
  }

  /** Taking one cell out of a row. */
  lemma WithoutCell(cs: seq<Cell>, vs: seq<Json>, r: set<Node>, j: nat)
    requires Parts(cs, r) && Models(cs, vs) && j < |cs|
    ensures Parts(Without(cs, j), r) && Models(Without(cs, j), Without(vs, j))
  {
    var out := Without(cs, j);
    assert forall k | 0 <= k < |out| :: out[k] == cs[if k < j then k else k + 1];
    assert forall k | 0 <= k < |out| :: Without(vs, j)[k] == vs[if k < j then k else k + 1];
  }

  lemma WithoutEntry(es: seq<Entry>, j: nat)
    requires j < |es| && DistinctKeys(es)
    ensures var out := Without(es, j);
      DistinctKeys(out) && KeysOf(out) == Without(KeysOf(es), j) && Values(out) == Without(Values(es), j)
  {
    var out := Without(es, j);
    assert forall k | 0 <= k < |out| :: out[k] == es[if k < j then k else k + 1];
  }

  /** `del node[key]` for the entry at `j`. */
  method DeleteAt(node: Node, j: nat)
    requires node.Valid() && node.isDict && j < |node.cells|
    modifies node
    ensures node.Valid() && node.model == Obj(Without(old(node.model.entries), j))
  {
    ghost var es := node.model.entries;
    WithoutCell(node.cells, Values(es), node.Repr - {node}, j);
    WithoutEntry(es, j);
    hide DistinctKeys, KeysOf, Values, Without;
    node.keys, node.cells := Without(node.keys, j), Without(node.cells, j);
    node.model := Obj(Without(es, j));
  }

  /** `node[key] = text` for the entry at `j`. */
  method PutText(node: Node, j: nat, text: string)
    requires node.Valid() && node.isDict && j < |node.cells|
    modifies node
    ensures node.Valid()
    ensures node.model == Obj(old(node.model.entries)[j := Entry(old(node.model.entries)[j].key, Str(text))])
  {
    ghost var es := node.model.entries;
    node.cells := node.cells[j := Leaf(Str(text))];
    node.model := Obj(es[j := Entry(es[j].key, Str(text))]);
  }

  function Position(keys: seq<string>, key: string): (j: nat)
    requires key in keys
    ensures j < |keys| && keys[j] == key
  {
    if keys[0] == key then 0 else 1 + Position(keys[1..], key)
  }

  // ----- copying and parsing --------------------------------------------------------------

  /** Appending a part that shares no node with the others. */
  lemma AppendPart(cs: seq<Cell>, r: set<Node>, c: Cell, more: set<Node>)
    requires Parts(cs, r) && Parts([c], more) && r !! more
    ensures Parts(cs + [c], r + more)
  {
  }

  method CopyCells(cells: seq<Cell>, ghost vs: seq<Json>, ghost r: set<Node>)
      returns (out: seq<Cell>, ghost parts: set<Node>)
    requires Parts(cells, r) && Models(cells, vs)
    ensures Parts(out, parts) && fresh(parts) && Models(out, vs)
    decreases r, 1
  {
    out, parts := [], {};
    for i := 0 to |cells|
      invariant Parts(out, parts) && fresh(parts) && Models(out, vs[..i])
    {
      var c := cells[i];
      if c.Ref? {
        var copy := CopyNode(c.node);
        AppendPart(out, parts, Ref(copy), copy.Repr);
        out, parts := out + [Ref(copy)], parts + copy.Repr;
      } else {
        AppendPart(out, parts, c, {});
        assert parts + {} == parts;
        out := out + [c];
      }
    }
    assert vs[..|cells|] == vs;
  }

  /** `copy.deepcopy` of a dict or list: an equal value that shares no object with the original. */
  method CopyNode(n: Node) returns (copy: Node)
    requires n.Valid()
    ensures copy.Valid() && fresh(copy.Repr) && copy.isDict == n.isDict && copy.model == n.model
    decreases n.Repr, 0
  {
    var cells, parts := CopyCells(n.cells, if n.isDict then Values(n.model.entries) else n.model.items, n.Repr - {n});
    copy := new Node(n.isDict, n.keys, cells, n.model, parts);
  }

  method ReadCells(cells: seq<Cell>, ghost vs: seq<Json>, ghost r: set<Node>) returns (out: seq<Json>)
    requires Parts(cells, r) && Models(cells, vs)
    ensures out == vs
    decreases r, 1
  {
    out := [];
    for i := 0 to |cells|
      invariant out == vs[..i]
    {
      var v: Json;
      if cells[i].Ref? {
        v := ReadNode(cells[i].node);
      } else {
        v := cells[i].v;
      }
      out := out + [v];
    }
  }

  /** The JSON value of a dict or list, for the serialiser. */
  method ReadNode(n: Node) returns (v: Json)
    requires n.Valid()
    ensures v == n.model
    decreases n.Repr, 0
  {
    var vs := ReadCells(n.cells, if n.isDict then Values(n.model.entries) else n.model.items, n.Repr - {n});
    if n.isDict {
      v := Obj(Zip(n.keys, vs));
    } else {
      v := Arr(vs);
    }
  }

  method BuildCells(ghost parent: Json, vs: seq<Json>) returns (out: seq<Cell>, ghost parts: set<Node>)
    requires forall i | 0 <= i < |vs| :: vs[i] < parent && WellFormed(vs[i])
    ensures Parts(out, parts) && fresh(parts) && Models(out, vs)
    decreases parent, 0
  {
    out, parts := [], {};
    for i := 0 to |vs|
      invariant Parts(out, parts) && fresh(parts) && Models(out, vs[..i])
    {
      if vs[i].IsContainer() {
        var n := BuildNode(vs[i]);
        AppendPart(out, parts, Ref(n), n.Repr);
        out, parts := out + [Ref(n)], parts + n.Repr;
      } else {
        AppendPart(out, parts, Leaf(vs[i]), {});
        assert parts + {} == parts;
        out := out + [Leaf(vs[i])];
      }
    }
    assert vs[..|vs|] == vs;
  }

  /** The objects the decoder builds for a parsed container. */
  method BuildNode(v: Json) returns (n: Node)
    requires v.IsContainer() && WellFormed(v)
    ensures n.Valid() && fresh(n.Repr) && n.isDict == v.Obj? && n.model == v
    decreases v, 1
  {
    var cells, parts := BuildCells(v, v.Children());
    n := new Node(v.Obj?, if v.Obj? then KeysOf(v.entries) else [], cells, v, parts);
  }

  // ----- the walk -------------------------------------------------------------------------

  /** Rule 3 when the text embeds a container, else rule 2. */
  method ScrubStringValue(p: Platform, text: string, depth: nat) returns (out: string, n: Tally)
    requires p.ParsesWellFormed() && depth < MAX_BODY_DEPTH
    ensures match ScrubString(p, text, depth)
            case DepthExceeded => n.TooDeep?
            case Done(t, m) => n == Removed(m) && out == t
    decreases Remaining(depth), 0
  {
    match Embedded(p, text) {
      case NotJson =>
        var count: nat;
        out, count := Shapes.ScrubText(text);
        n := Removed(count);
      case DecoderOverflow =>
        out, n := text, TooDeep;
      case Loaded(v) =>
        var parsed := BuildNode(v);
        n := ScrubNode(p, parsed, depth + 1);
        out := text;
        if n.Removed? && n.n > 0 {
          var scrubbed := ReadNode(parsed);
          out := p.dumps(scrubbed);
        }
    }
  }

  /** Scrubs a dict or list in place; nothing is promised of it when the depth limit is hit. */
  method ScrubNode(p: Platform, node: Node, depth: nat) returns (n: Tally)
    requires p.ParsesWellFormed() && node.Valid()
    modifies node.Repr
    ensures match ScrubContainer(p, old(node.model), depth)
            case DepthExceeded => n.TooDeep?
            case Done(w, m) => n == Removed(m) && node.Valid() && node.model == w
    decreases Remaining(depth), 5
  {
    if node.isDict {
      n := ScrubDict(p, node, depth);
    } else {
      n := ScrubList(p, node, depth);
    }
  }

  function Prefixed<T>(kept: seq<T>, n: nat, rest: Outcome<seq<T>>): Outcome<seq<T>> {
    match rest
    case DepthExceeded => DepthExceeded
    case Done(ts, m) => Done(kept + ts, n + m)
  }

  lemma PrefixedByNothing<T>(all: seq<T>, r: Outcome<seq<T>>)
    ensures Prefixed([], 0, r) == r
    ensures all[0..] == all && [] + all[0..] == all
  {
    if r.Done? {
      assert [] + r.value == r.value;
    }
  }

  lemma SplitAt<T>(kept: seq<T>, all: seq<T>, i: nat)
    requires i < |all|
    ensures kept + all[i..] == kept + [all[i]] + all[i + 1..]
  {
  }

  lemma NothingFollows<T>(kept: seq<T>, n: nat)
    ensures Prefixed(kept, n, Done([], 0)) == Done(kept, n)
  {
    assert kept + [] == kept;
  }

  function KeptEntry(key: string, slot: Slot): seq<Entry> {
    if slot.Kept? then [Entry(key, slot.v)] else []
  }

  lemma NextItem(p: Platform, items: seq<Json>, i: nat, depth: nat, vs: seq<Json>, removed: nat)
    requires depth < MAX_BODY_DEPTH && i < |items|
    ensures match ScrubChild(p, items[i], depth)
            case DepthExceeded => Prefixed(vs, removed, ScrubItems(p, items[i..], depth)).DepthExceeded?
            case Done(slot, n) =>
              Prefixed(vs, removed, ScrubItems(p, items[i..], depth))
              == Prefixed(vs + (if slot.Kept? then [slot.v] else []), removed + n, ScrubItems(p, items[i + 1..], depth))
  {
    hide ScrubChild;
    assert items[i..][1..] == items[i + 1..];
    var here := ScrubChild(p, items[i], depth);
    var rest := ScrubItems(p, items[i + 1..], depth);
    if here.Done? && rest.Done? {
      var front := if here.value.Kept? then [here.value.v] else [];
      assert ScrubItems(p, items[i..], depth).value == front + rest.value;
      assert vs + (front + rest.value) == (vs + front) + rest.value;
    }
  }

  lemma DictKeys(node: Node)
    requires node.Valid() && node.isDict
    ensures node.model.Obj? && node.keys == KeysOf(node.model.entries) && |node.cells| == |node.model.entries|
  {
  }

  method ScrubDict(p: Platform, node: Node, depth: nat) returns (n: Tally)
    requires p.ParsesWellFormed() && node.Valid() && node.isDict
    modifies node.Repr
    ensures match ScrubContainer(p, old(node.model), depth)
            case DepthExceeded => n.TooDeep?
            case Done(w, m) => n == Removed(m) && node.Valid() && node.model == w
    decreases Remaining(depth), 4
  {
    if depth >= MAX_BODY_DEPTH {
      return TooDeep;
    }
    DictKeys(node);
    n := ScrubDictEntries(p, node, depth, node.model.entries);
  }

  /** The dict while the loop is at its entry `i`: what was kept, then what is still to come. */
  function Row(kept: seq<Entry>, entries: seq<Entry>, i: nat): seq<Entry>
    requires i <= |entries|
  {
    kept + entries[i..]
  }

  lemma RowSplit(kept: seq<Entry>, entries: seq<Entry>, i: nat)
    requires i < |entries|
    ensures Row(kept, entries, i) == kept + [entries[i]] + entries[i + 1..]
    ensures forall more: seq<Entry> :: kept + more + entries[i + 1..] == Row(kept + more, entries, i + 1)
  {
  }

  /** The first `i` entries have been dealt with: `kept` is left of them after `removed` removals. */
  ghost predicate EntriesSoFar(p: Platform, entries: seq<Entry>, i: nat, depth: nat, kept: seq<Entry>, removed: nat) {
    && i <= |entries| && depth < MAX_BODY_DEPTH
    && ScrubEntries(p, entries, depth) == Prefixed(kept, removed, ScrubEntries(p, entries[i..], depth))
  }

  lemma StartEntries(p: Platform, entries: seq<Entry>, depth: nat)
    requires depth < MAX_BODY_DEPTH
    ensures EntriesSoFar(p, entries, 0, depth, [], 0) && Row([], entries, 0) == entries
  {
    PrefixedByNothing(entries, ScrubEntries(p, entries, depth));
  }

  lemma NextEntry(p: Platform, entries: seq<Entry>, i: nat, depth: nat, kept: seq<Entry>, removed: nat)
    requires i < |entries| && EntriesSoFar(p, entries, i, depth, kept, removed)
    ensures match ScrubEntry(p, entries[i], depth)
            case DepthExceeded => ScrubEntries(p, entries, depth).DepthExceeded?
            case Done(slot, n) =>
              EntriesSoFar(p, entries, i + 1, depth, kept + KeptEntry(entries[i].key, slot), removed + n)
  {
    hide ScrubEntry;
    assert entries[i..][1..] == entries[i + 1..];
    var here := ScrubEntry(p, entries[i], depth);
    var rest := ScrubEntries(p, entries[i + 1..], depth);
    if here.Done? && rest.Done? {
      var front := KeptEntry(entries[i].key, here.value);
      assert ScrubEntries(p, entries[i..], depth).value == front + rest.value;
      assert kept + (front + rest.value) == (kept + front) + rest.value;
    }
  }

  lemma AllEntries(p: Platform, entries: seq<Entry>, depth: nat, kept: seq<Entry>, removed: nat)
    requires EntriesSoFar(p, entries, |entries|, depth, kept, removed)
    ensures ScrubEntries(p, entries, depth) == Done(kept, removed) && Row(kept, entries, |entries|) == kept
  {
    assert kept + [] == kept;
  }

  /** The loop over a snapshot of the keys. */
  method ScrubDictEntries(p: Platform, node: Node, depth: nat, ghost entries: seq<Entry>) returns (n: Tally)
    requires p.ParsesWellFormed() && node.Valid() && node.isDict && node.model == Obj(entries) && depth < MAX_BODY_DEPTH
    modifies node.Repr
    ensures n.TooDeep? ==> ScrubEntries(p, entries, depth).DepthExceeded?
    ensures n.Removed? ==>
      node.Valid() && node.model.Obj? && ScrubEntries(p, entries, depth) == Done(node.model.entries, n.n)
    decreases Remaining(depth), 3
  {
    hide *;
    DictKeys(node);
    StartEntries(p, entries, depth);
    var removed: nat := 0;
    ghost var kept: seq<Entry> := [];
    var snapshot := node.keys;
    var i := 0;
    while i < |snapshot|
      invariant i <= |snapshot| == |entries| && node.Valid() && node.model == Obj(Row(kept, entries, i))
      invariant EntriesSoFar(p, entries, i, depth, kept, removed)
    {
      NextEntry(p, entries, i, depth, kept, removed);
      ghost var slot;
      n, slot := ScrubDictEntry(p, node, snapshot[i], depth, kept, entries, i);
      if n.TooDeep? {
        return;
      }
      kept, removed, i := kept + KeptEntry(snapshot[i], slot), removed + n.n, i + 1;
    }
    AllEntries(p, entries, depth, kept, removed);
    n := Removed(removed);
  }

  /** One pass of the loop over the keys: rule 1, or the value is scrubbed and perhaps dropped. */
  method ScrubDictEntry(p: Platform, node: Node, key: string, depth: nat, ghost kept: seq<Entry>,
      ghost entries: seq<Entry>, ghost i: nat)
    returns (n: Tally, ghost slot: Slot)
    requires p.ParsesWellFormed() && depth < MAX_BODY_DEPTH
    requires i < |entries| && key == entries[i].key
    requires node.Valid() && node.isDict && node.model == Obj(Row(kept, entries, i))
    modifies node.Repr
    ensures match ScrubEntry(p, entries[i], depth)
            case DepthExceeded => n.TooDeep?
            case Done(s, m) =>
              && n == Removed(m) && slot == s && node.Valid()
              && node.model == Obj(Row(kept + KeptEntry(key, s), entries, i + 1))
    decreases Remaining(depth), 2
  {
    hide *;
    slot := Dropped;
    ghost var e, rest := entries[i], entries[i + 1..];
    RowSplit(kept, entries, i);
    EntryCell(node, kept, e, rest);
    var j := Position(node.keys, key);
    SpliceEntry(kept, e, rest);
    EntryCases(p, e, depth);
    if IsCredentialKey(p, key) {
      DeleteAt(node, j);
      return Removed(1), Dropped;
    }
    match node.cells[j] {
      case Ref(child) =>
        n := ScrubDictChild(p, node, child, j, depth);
        if n.Removed? {
          slot := Kept(child.model);
        }
      case Leaf(v) =>
        if v.Str? {
          n, slot := ScrubDictText(p, node, v.s, j, depth);
        } else {
          n, slot := Removed(0), Kept(v);
        }
    }
  }

  /** The branches of one pass. */
  lemma EntryCases(p: Platform, e: Entry, depth: nat)
    requires depth < MAX_BODY_DEPTH
    ensures IsCredentialKey(p, e.key) ==> ScrubEntry(p, e, depth) == Done(Dropped, 1)
    ensures !IsCredentialKey(p, e.key) ==> ScrubEntry(p, e, depth) == ScrubChild(p, e.val, depth)
    ensures !e.val.Str? && !e.val.IsContainer() ==> ScrubChild(p, e.val, depth) == Done(Kept(e.val), 0)
    ensures e.val.IsContainer() ==>
      match ScrubContainer(p, e.val, depth + 1)
      case DepthExceeded => ScrubChild(p, e.val, depth).DepthExceeded?
      case Done(w, n) => ScrubChild(p, e.val, depth) == Done(Kept(w), n)
    ensures KeptEntry(e.key, Dropped) == [] && forall v :: KeptEntry(e.key, Kept(v)) == [Entry(e.key, v)]
  {
    hide ScrubContainer, IsCredentialKey;
  }

  /** The cell that holds the entry `e`, found by its key. */
  lemma EntryCell(node: Node, kept: seq<Entry>, e: Entry, rest: seq<Entry>)
    requires node.Valid() && node.isDict && node.model == Obj(kept + [e] + rest)
    ensures e.key in node.keys && Position(node.keys, e.key) == |kept| < |node.cells| && node in node.Repr
    ensures match node.cells[|kept|]
            case Ref(child) => e.val == child.model && e.val.IsContainer() && child.Repr <= node.Repr
            case Leaf(v) => e.val == v && !v.IsContainer()
  {
    var es := node.model.entries;
    assert es[|kept|] == e && node.keys[|kept|] == e.key;
    assert Values(es)[|kept|] == e.val == Model(node.cells[|kept|]);
    if node.cells[|kept|].Ref? {
      assert node.cells[|kept|].node.Valid();
    }
  }

  lemma SpliceEntry(kept: seq<Entry>, e: Entry, rest: seq<Entry>)
    ensures var es := kept + [e] + rest;
      && es[|kept|] == e
      && Without(es, |kept|) == kept + [] + rest
      && forall v :: es[|kept| := Entry(e.key, v)] == kept + [Entry(e.key, v)] + rest
  {
  }

  method ScrubDictChild(p: Platform, node: Node, child: Node, j: nat, depth: nat) returns (n: Tally)
    requires p.ParsesWellFormed() && depth < MAX_BODY_DEPTH
    requires node.Valid() && node.isDict && j < |node.cells| && node.cells[j] == Ref(child)
    requires node.model.entries[j].val.IsContainer()
    modifies node, child.Repr
    ensures match ScrubContainer(p, old(node.model.entries[j].val), depth + 1)
            case DepthExceeded => n.TooDeep?
            case Done(w, m) =>
              && n == Removed(m) && child.model == w && node.Valid()
              && node.model == Obj(old(node.model.entries)[j := Entry(old(node.model.entries[j].key), w)])
    decreases Remaining(depth), 1
  {
    ghost var es := node.model.entries;
    n := ScrubPart(p, child, depth, node.cells, Values(es), j, node.Repr - {node});
    if n.Removed? {
      node.model := Obj(es[j := Entry(es[j].key, child.model)]);
      assert Values(node.model.entries) == Values(es)[j := child.model];
      assert KeysOf(node.model.entries) == KeysOf(es);
    }
  }

  lemma TextCases(p: Platform, text: string, depth: nat)
    requires depth < MAX_BODY_DEPTH
    ensures match ScrubString(p, text, depth)
            case DepthExceeded => ScrubChild(p, Str(text), depth).DepthExceeded?
            case Done(t, n) =>
              ScrubChild(p, Str(text), depth) ==
              Done(if n > 0 && Strip(t) == "" then Dropped else Kept(if n > 0 then Str(t) else Str(text)), n)
  {
    hide ScrubString, Strip;
  }

  method ScrubDictText(p: Platform, node: Node, original: string, j: nat, depth: nat)
      returns (n: Tally, ghost slot: Slot)
    requires p.ParsesWellFormed() && depth < MAX_BODY_DEPTH
    requires node.Valid() && node.isDict && j < |node.cells| && node.model.entries[j].val == Str(original)
    modifies node
    ensures match ScrubChild(p, Str(original), depth)
            case DepthExceeded => n.TooDeep?
            case Done(s, m) =>
              && n == Removed(m) && slot == s && node.Valid()
              && node.model == Obj(if s.Kept?
                                   then old(node.model.entries)[j := Entry(old(node.model.entries[j].key), s.v)]
                                   else Without(old(node.model.entries), j))
    decreases Remaining(depth), 1
  {
    hide *;
    DictKeys(node);
    TextCases(p, original, depth);
    assert node.model.entries[j := Entry(node.model.entries[j].key, Str(original))] == node.model.entries;
    slot := Kept(Str(original));
    var text: string;
    text, n := ScrubStringValue(p, original, depth);
    if n.Removed? && n.n > 0 {
      if Strip(text) != "" {
        PutText(node, j, text);
        slot := Kept(Str(text));
      } else {
        DeleteAt(node, j);
        slot := Dropped;
      }
    }
  }

  /** Scrubs the container in cell `j` of a row of cells; the other cells keep their values. */
  method ScrubPart(p: Platform, child: Node, depth: nat, ghost cs: seq<Cell>, ghost vs: seq<Json>, ghost j: nat,
      ghost r: set<Node>)
    returns (n: Tally)
    requires p.ParsesWellFormed() && depth < MAX_BODY_DEPTH
    requires Parts(cs, r) && Models(cs, vs) && j < |cs| && cs[j] == Ref(child) && vs[j].IsContainer()
    modifies child.Repr
    ensures match ScrubContainer(p, vs[j], depth + 1)
            case DepthExceeded => n.TooDeep?
            case Done(w, m) => n == Removed(m) && child.model == w && Parts(cs, r) && Models(cs, vs[j := w])
    decreases Remaining(depth), 0
  {
    n := ScrubNode(p, child, depth + 1);
    if n.Removed? {
      forall k | 0 <= k < |cs| && k != j && cs[k].Ref?
        ensures cs[k].node.Valid() && cs[k].node.model == vs[k]
      {
        assert cs[k].node.Repr !! child.Repr;
        assert cs[k].node in cs[k].node.Repr;
      }
    }
  }

  method ScrubList(p: Platform, node: Node, depth: nat) returns (n: Tally)
    requires p.ParsesWellFormed() && node.Valid() && !node.isDict
    modifies node.Repr
    ensures match ScrubContainer(p, old(node.model), depth)
            case DepthExceeded => n.TooDeep?
            case Done(w, m) => n == Removed(m) && node.Valid() && node.model == w
    decreases Remaining(depth), 3
  {
    if depth >= MAX_BODY_DEPTH {
      return TooDeep;
    }
    var kept: seq<Cell>;
    ghost var vs;
    n, kept, vs := ScrubListItems(p, node, depth, node.model.items, node.Repr - {node});
    if n.Removed? {
      node.cells := kept;
      node.model := Arr(vs);
    }
  }

  /** The loop over the elements, collecting the kept ones. */
  method ScrubListItems(p: Platform, node: Node, depth: nat, ghost items: seq<Json>, ghost r: set<Node>)
    returns (n: Tally, kept: seq<Cell>, ghost vs: seq<Json>)
    requires p.ParsesWellFormed() && depth < MAX_BODY_DEPTH && node !in r
    requires Parts(node.cells, r) && Models(node.cells, items)
    modifies r
    ensures match ScrubItems(p, items, depth)
            case DepthExceeded => n.TooDeep?
            case Done(ys, m) => n == Removed(m) && vs == ys && Parts(kept, r) && Models(kept, ys)
    decreases Remaining(depth), 2
  {
    hide *;
    var removed: nat := 0;
    kept, vs := [], [];
    var cells := node.cells;
    SameLength(cells, items);
    var i := 0;
    assert kept + cells[0..] == cells;
    PrefixedByNothing(items, ScrubItems(p, items, depth));
    while i < |cells|
      invariant i <= |cells| == |items| && |kept| == |vs|
      invariant Parts(kept + cells[i..], r) && Models(kept + cells[i..], vs + items[i..])
      invariant ScrubItems(p, items, depth) == Prefixed(vs, removed, ScrubItems(p, items[i..], depth))
    {
      SplitAt(kept, cells, i);
      SplitAt(vs, items, i);
      NextItem(p, items, i, depth, vs, removed);
      PartWithin(kept + cells[i..], r, |kept|);
      ghost var slot;
      var keep: seq<Cell>;
      n, keep, slot := ScrubItem(p, cells[i], depth, kept, cells[i + 1..], vs, items[i], items[i + 1..], r);
      if n.TooDeep? {
        return;
      }
      kept, vs := kept + keep, vs + (if slot.Kept? then [slot.v] else []);
      removed, i := removed + n.n, i + 1;
    }
    NoItems(p, items, i, depth, vs, removed);
    assert kept + cells[i..] == kept;
    n := Removed(removed);
  }

  lemma SameLength(cs: seq<Cell>, vs: seq<Json>)
    requires Models(cs, vs)
    ensures |cs| == |vs|
  {
  }

  lemma PartWithin(cs: seq<Cell>, r: set<Node>, j: nat)
    requires Parts(cs, r) && j < |cs|
    ensures cs[j].Ref? ==> cs[j].node.Repr <= r
  {
  }

  lemma NoItems(p: Platform, items: seq<Json>, i: nat, depth: nat, vs: seq<Json>, removed: nat)
    requires i == |items| && depth < MAX_BODY_DEPTH
    ensures Prefixed(vs, removed, ScrubItems(p, items[i..], depth)) == Done(vs, removed)
    ensures vs + items[i..] == vs
  {
    NothingFollows(vs, removed);
  }

  /** One pass of the loop over the elements: what is appended to the kept ones. */
  method ScrubItem(p: Platform, item: Cell, depth: nat, ghost kept: seq<Cell>, ghost later: seq<Cell>,
                   ghost vs: seq<Json>, ghost v: Json, ghost rest: seq<Json>, ghost r: set<Node>)
    returns (n: Tally, keep: seq<Cell>, ghost slot: Slot)
    requires p.ParsesWellFormed() && depth < MAX_BODY_DEPTH
    requires Parts(kept + [item] + later, r) && Models(kept + [item] + later, vs + [v] + rest) && |kept| == |vs|
    modifies if item.Ref? then item.node.Repr else {}
    ensures match ScrubChild(p, v, depth)
            case DepthExceeded => n.TooDeep?
            case Done(s, m) =>
              && n == Removed(m) && slot == s && |keep| == (if s.Kept? then 1 else 0)
              && Parts(kept + keep + later, r)
              && Models(kept + keep + later, vs + (if s.Kept? then [s.v] else []) + rest)
    decreases Remaining(depth), 1
  {
    ghost var cs, all := kept + [item] + later, vs + [v] + rest;
    ghost var j := |kept|;
    assert cs[j] == item && all[j] == v && Model(item) == v;
    keep := [item];
    slot := Kept(v);
    match item {
      case Ref(child) =>
        n := ScrubPart(p, child, depth, cs, all, j, r);
        if n.Removed? {
          slot := Kept(child.model);
          assert vs + [child.model] + rest == all[j := child.model];
        }
      case Leaf(w) =>
        n := Removed(0);
        if w.Str? {
          var text: string;
          text, n := ScrubStringValue(p, w.s, depth);
          if n.Removed? && n.n > 0 {
            if Strip(text) == "" {
              keep, slot := [], Dropped;
              DropCell(cs, all, r, kept, later, vs, rest);
            } else {
              keep, slot := [Leaf(Str(text))], Kept(Str(text));
              SwapCell(cs, all, r, kept, later, vs, rest, Str(text));
            }
          }
        }
    }
  }

  lemma DropCell(cs: seq<Cell>, all: seq<Json>, r: set<Node>, kept: seq<Cell>, later: seq<Cell>, vs: seq<Json>,
      rest: seq<Json>)
    requires Parts(cs, r) && Models(cs, all) && |kept| == |vs| < |cs|
    requires cs == kept + [cs[|kept|]] + later && all == vs + [all[|vs|]] + rest
    ensures Parts(kept + [] + later, r) && Models(kept + [] + later, vs + [] + rest)
  {
    WithoutCell(cs, all, r, |kept|);
    assert kept + [] + later == Without(cs, |kept|) && vs + [] + rest == Without(all, |kept|);
  }

  lemma SwapCell(cs: seq<Cell>, all: seq<Json>, r: set<Node>, kept: seq<Cell>, later: seq<Cell>, vs: seq<Json>,
      rest: seq<Json>, v: Json)
    requires Parts(cs, r) && Models(cs, all) && |kept| == |vs| < |cs| && !v.IsContainer()
    requires cs == kept + [cs[|kept|]] + later && all == vs + [all[|vs|]] + rest
    ensures Parts(kept + [Leaf(v)] + later, r) && Models(kept + [Leaf(v)] + later, vs + [v] + rest)
  {
    assert kept + [Leaf(v)] + later == cs[|kept| := Leaf(v)];
    assert vs + [v] + rest == all[|kept| := v];
  }

  /** The public entry point. The caller's value is left alone: nothing that existed before the
      call is modified. */
  method ScrubBody(p: Platform, value: Cell) returns (out: Cell, n: Tally)
    requires p.ParsesWellFormed()
    requires value.Ref? ==> value.node.Valid()
    requires value.Leaf? ==> !value.v.IsContainer()
    ensures match Scrub(p, Model(value))
            case DepthExceeded => n.TooDeep?
            case Done(w, m) =>
              n == Removed(m) && Model(out) == w && (out.Ref? ==> out.node.Valid() && fresh(out.node.Repr))
  {
    hide ScrubContainer, ScrubString, Node.Valid;
    out := value;
    var ok, _ := AssertWithinDepth(value);
    if !ok {
      return value, TooDeep;
    }
    match value {
      case Ref(node) =>
        var scrubbed := CopyNode(node);
        n := ScrubNode(p, scrubbed, 0);
        out := Ref(scrubbed);
      case Leaf(v) =>
        n := Removed(0);
        if v.Str? {
          var text: string;
          text, n := ScrubStringValue(p, v.s, 0);
          out := Leaf(Str(text));
        }
    }
  }
}
