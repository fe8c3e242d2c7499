/** The pre-copy depth check: an explicit stack of half-read containers instead of recursion. */
module DepthGuard {
  import opened Wrappers
  import opened Json
  import opened ScrubWalk
  import opened Nodes

  /** Nothing on the stack goes deeper than `bound`: every child still to be read on level `k` has
      `k + 1` containers around it. */
  ghost predicate Fits(levels: seq<seq<Json>>, bound: nat) {
    && |levels| <= bound
    && forall k, i | 0 <= k < |levels| && 0 <= i < |levels[k]| :: k + 1 + ContainerDepth(levels[k][i]) <= bound
  }

  /** The depth of the body is what was reached so far or is still on the stack, whichever is more. */
  ghost predicate Explains(levels: seq<seq<Json>>, deepest: nat, depth: nat) {
    && |levels| <= deepest
    && forall bound: nat :: Fits(levels, bound) && deepest <= bound <==> depth <= bound
  }

  ghost function Work(v: Json): nat
    decreases v, 1, 0
  {
    if v.IsContainer() then 2 + WorkOf(v, v.Children()) else 1
  }

  ghost function WorkOf(parent: Json, vs: seq<Json>): nat
    requires forall i | 0 <= i < |vs| :: vs[i] < parent
    decreases parent, 0, |vs|
  {
    if vs == [] then 0 else Work(vs[0]) + WorkOf(parent, vs[1..])
  }

  ghost function Level(vs: seq<Json>): nat {
    if vs == [] then 0 else Work(vs[0]) + Level(vs[1..])
  }

  lemma {:induction false} LevelIsWork(parent: Json, vs: seq<Json>)
    requires forall i | 0 <= i < |vs| :: vs[i] < parent
    ensures Level(vs) == WorkOf(parent, vs)
    decreases |vs|
  {
    if vs != [] {
      LevelIsWork(parent, vs[1..]);
    }
  }

  /** What is left to do for the whole stack. */
  ghost function Left(levels: seq<seq<Json>>): nat {
    if levels == [] then 0 else 1 + Level(levels[|levels| - 1]) + Left(levels[..|levels| - 1])
  }

  lemma PushChild(rest: seq<seq<Json>>, child: Json, bound: nat)
    requires child.IsContainer()
    ensures Fits(rest + [child.Children()], bound) <==> Fits(rest, bound) && |rest| + ContainerDepth(child) <= bound
  {
    var next, vs := rest + [child.Children()], child.Children();
    assert next[|rest|] == vs;
    assert forall k | 0 <= k < |rest| :: next[k] == rest[k];
    if Fits(next, bound) {
      forall k, i | 0 <= k < |rest| && 0 <= i < |rest[k]| ensures k + 1 + ContainerDepth(rest[k][i]) <= bound {
        assert rest[k][i] == next[k][i];
      }
      var deepest := DeepestOf(child, vs);
      if deepest > 0 {
        var i :| 0 <= i < |vs| && deepest == ContainerDepth(vs[i]);
        assert next[|rest|][i] == vs[i];
      }
    }
  }

  lemma SkipChild(levels: seq<seq<Json>>, top: nat, bound: nat)
    requires top == |levels| - 1 && levels[top] != []
    ensures Fits(levels, bound) <==>
            Fits(levels[top := levels[top][1..]], bound) && top + 1 + ContainerDepth(levels[top][0]) <= bound
  {
    hide ContainerDepth;
    var child := levels[top][0];
    var rest := levels[top := levels[top][1..]];
    assert forall i | 0 <= i < |rest[top]| :: rest[top][i] == levels[top][i + 1];
    assert forall k | 0 <= k < top :: rest[k] == levels[k];
    if Fits(rest, bound) && top + 1 + ContainerDepth(child) <= bound {
      forall i | 0 <= i < |levels[top]| ensures top + 1 + ContainerDepth(levels[top][i]) <= bound {
        assert i > 0 ==> levels[top][i] == rest[top][i - 1];
      }
    }
  }

  ghost function AfterChild(levels: seq<seq<Json>>): seq<seq<Json>>
    requires levels != [] && levels[|levels| - 1] != []
  {
    var top := |levels| - 1;
    var rest := levels[top := levels[top][1..]];
    if levels[top][0].IsContainer() then rest + [levels[top][0].Children()] else rest
  }

  lemma TakeChildFits(levels: seq<seq<Json>>, bound: nat)
    requires levels != [] && levels[|levels| - 1] != []
    ensures Fits(AfterChild(levels), bound) <==> Fits(levels, bound)
  {
    hide Fits;
    var top := |levels| - 1;
    SkipChild(levels, top, bound);
    if levels[top][0].IsContainer() {
      PushChild(levels[top := levels[top][1..]], levels[top][0], bound);
    } else {
      ScalarChildFits(levels, bound);
    }
  }

  lemma ScalarChildFits(levels: seq<seq<Json>>, bound: nat)
    requires levels != [] && levels[|levels| - 1] != [] && !levels[|levels| - 1][0].IsContainer()
    ensures Fits(levels[|levels| - 1 := levels[|levels| - 1][1..]], bound) ==>
            |levels| + ContainerDepth(levels[|levels| - 1][0]) <= bound
  {
  }

  lemma FitsIsBounded(levels: seq<seq<Json>>, bound: nat)
    requires Fits(levels, bound)
    ensures |levels| <= bound
  {
  }

  /** Reading the next child of the innermost container keeps the account of the depth and makes
      progress. */
  lemma TakeChild(levels: seq<seq<Json>>, deepest: nat, depth: nat)
    requires levels != [] && levels[|levels| - 1] != [] && Explains(levels, deepest, depth)
    ensures Explains(AfterChild(levels), Max(deepest, |AfterChild(levels)|), depth)
    ensures Left(AfterChild(levels)) < Left(levels)
  {
    hide Fits, AfterChild, Left;
    var next := AfterChild(levels);
    forall bound: nat
      ensures Fits(next, bound) && Max(deepest, |next|) <= bound <==> depth <= bound
    {
      TakeChildFits(levels, bound);
      if Fits(next, bound) {
        FitsIsBounded(next, bound);
      }
    }
    TakeChildProgresses(levels);
  }

  lemma TakeChildProgresses(levels: seq<seq<Json>>)
    requires levels != [] && levels[|levels| - 1] != []
    ensures Left(AfterChild(levels)) < Left(levels)
  {
    hide ContainerDepth;
    var top := |levels| - 1;
    var child := levels[top][0];
    var rest := levels[top := levels[top][1..]];
    assert rest[..top] == levels[..top];
    assert Left(rest) + Work(child) == Left(levels);
    if child.IsContainer() {
      LevelIsWork(child, child.Children());
      assert (rest + [child.Children()])[..top + 1] == rest;
    }
  }

  lemma DropLevelFits(levels: seq<seq<Json>>, bound: nat)
    requires levels != [] && levels[|levels| - 1] == [] && |levels| <= bound
    ensures Fits(levels[..|levels| - 1], bound) <==> Fits(levels, bound)
  {
    hide ContainerDepth;
    var less := levels[..|levels| - 1];
    assert forall k | 0 <= k < |less| :: less[k] == levels[k];
  }

  lemma DropLevel(levels: seq<seq<Json>>, deepest: nat, depth: nat)
    requires levels != [] && levels[|levels| - 1] == [] && Explains(levels, deepest, depth)
    ensures Explains(levels[..|levels| - 1], deepest, depth)
    ensures Left(levels[..|levels| - 1]) < Left(levels)
  {
    hide Fits;
    var less := levels[..|levels| - 1];
    forall bound: nat ensures Fits(less, bound) && deepest <= bound <==> depth <= bound {
      assert Fits(levels, bound) && deepest <= bound <==> depth <= bound;
      if deepest <= bound {
        DropLevelFits(levels, bound);
      }
    }
  }

  /** The stack holds valid cells of the body whose models are the levels. */
  ghost predicate Tracks(stack: seq<seq<Cell>>, levels: seq<seq<Json>>, body: Node)
    reads body, body.Repr
    ensures Tracks(stack, levels, body) ==> |stack| == |levels|
  {
    && |stack| == |levels|
    && forall k | 0 <= k < |stack| :: Parts(stack[k], body.Repr) && Models(stack[k], levels[k])
  }

  lemma TrackOpened(stack: seq<seq<Cell>>, levels: seq<seq<Json>>, body: Node, n: Node)
    requires Tracks(stack, levels, body) && n.Valid() && n.Repr <= body.Repr
    ensures n.model.IsContainer() && Tracks(stack + [n.cells], levels + [n.model.Children()], body)
  {
    PartsWiden(n.cells, n.Repr - {n}, body.Repr);
    assert Models(n.cells, n.model.Children());
  }

  lemma TrackBody(body: Node)
    requires body.Valid()
    ensures body.model.IsContainer() && Tracks([body.cells], [body.model.Children()], body)
    ensures Explains([body.model.Children()], 1, ContainerDepth(body.model))
  {
    TrackOpened([], [], body, body);
    forall bound: nat ensures Fits([body.model.Children()], bound) <==> ContainerDepth(body.model) <= bound {
      PushChild([], body.model, bound);
      assert [] + [body.model.Children()] == [body.model.Children()];
    }
    assert [] + [body.cells] == [body.cells];
    assert [] + [body.model.Children()] == [body.model.Children()];
  }

  lemma PartsWiden(cs: seq<Cell>, small: set<Node>, big: set<Node>)
    requires Parts(cs, small) && small <= big
    ensures Parts(cs, big)
  {
  }

  ghost predicate TracksNext(stack: seq<seq<Cell>>, levels: seq<seq<Json>>, body: Node, top: nat)
    requires top < |stack| == |levels| && stack[top] != [] && levels[top] != []
    reads body, body.Repr, if stack[top][0].Ref? then {stack[top][0].node} + stack[top][0].node.Repr else {}
  {
    && Tracks(stack[top := stack[top][1..]], levels[top := levels[top][1..]], body)
    && Model(stack[top][0]) == levels[top][0]
    && (match stack[top][0]
        case Leaf(v) => !v.IsContainer()
        case Ref(n) => n.Valid() && n.Repr <= body.Repr)
  }

  lemma TrackNext(stack: seq<seq<Cell>>, levels: seq<seq<Json>>, body: Node)
    requires Tracks(stack, levels, body) && stack != []
    ensures Tracks(stack[..|stack| - 1], levels[..|stack| - 1], body)
    ensures stack[|stack| - 1] == [] <==> levels[|stack| - 1] == []
    ensures stack[|stack| - 1] != [] ==> TracksNext(stack, levels, body, |stack| - 1)
  {
    var top := |stack| - 1;
    assert Parts(stack[top], body.Repr) && Models(stack[top], levels[top]);
    if stack[top] != [] {
      assert Parts(stack[top][1..], body.Repr) && Models(stack[top][1..], levels[top][1..]);
    }
  }

  /** The stack after taking the next child off the innermost container, opened if it is a container. */
  function ReadChild(stack: seq<seq<Cell>>): seq<seq<Cell>>
    requires stack != [] && stack[|stack| - 1] != []
    reads if stack[|stack| - 1][0].Ref? then {stack[|stack| - 1][0].node} else {}
  {
    var top := |stack| - 1;
    var rest := stack[top := stack[top][1..]];
    if stack[top][0].Ref? then rest + [stack[top][0].node.cells] else rest
  }

  lemma TrackChild(stack: seq<seq<Cell>>, levels: seq<seq<Json>>, body: Node)
    requires Tracks(stack, levels, body) && stack != [] && stack[|stack| - 1] != []
    ensures levels[|levels| - 1] != [] && Tracks(ReadChild(stack), AfterChild(levels), body)
    ensures |ReadChild(stack)| <= |stack| + 1
  {
    var top := |stack| - 1;
    TrackNext(stack, levels, body);
    var child := stack[top][0];
    hide Node.Valid, Tracks;
    if child.Ref? {
      TrackOpened(stack[top := stack[top][1..]], levels[top := levels[top][1..]], body, child.node);
    }
  }

  lemma LeaveContainer(stack: seq<seq<Cell>>, levels: seq<seq<Json>>, body: Node, deepest: nat)
    requires Tracks(stack, levels, body) && Explains(levels, deepest, ContainerDepth(body.model))
    requires stack != [] && stack[|stack| - 1] == []
    ensures Tracks(stack[..|stack| - 1], levels[..|levels| - 1], body)
    ensures Explains(levels[..|levels| - 1], deepest, ContainerDepth(body.model))
    ensures Left(levels[..|levels| - 1]) < Left(levels)
  {
    hide Tracks, Explains, Left, ContainerDepth;
    TrackNext(stack, levels, body);
    DropLevel(levels, deepest, ContainerDepth(body.model));
  }

  lemma EnterChild(stack: seq<seq<Cell>>, levels: seq<seq<Json>>, body: Node, deepest: nat) returns (reached: nat)
    requires Tracks(stack, levels, body) && Explains(levels, deepest, ContainerDepth(body.model))
    requires stack != [] && stack[|stack| - 1] != [] && |stack| <= deepest
    ensures levels[|levels| - 1] != [] && Tracks(ReadChild(stack), AfterChild(levels), body)
    ensures Explains(AfterChild(levels), reached, ContainerDepth(body.model))
    ensures Left(AfterChild(levels)) < Left(levels)
    ensures |AfterChild(levels)| <= reached && |ReadChild(stack)| <= |stack| + 1
    ensures reached == deepest || reached == |ReadChild(stack)|
  {
    hide Tracks, Explains, Left, ContainerDepth, ReadChild, AfterChild;
    TrackChild(stack, levels, body);
    TakeChild(levels, deepest, ContainerDepth(body.model));
    reached := Max(deepest, |AfterChild(levels)|);
  }

  /** Accepts exactly the bodies that nest at most 100 containers and changes nothing. `deepest` is the
      most half-read containers it ever held: the depth of an accepted body, 101 for a refused one. */
  method AssertWithinDepth(value: Cell) returns (ok: bool, ghost deepest: nat)
    requires value.Ref? ==> value.node.Valid()
    requires value.Leaf? ==> !value.v.IsContainer()
    ensures ok <==> ContainerDepth(Model(value)) <= MAX_BODY_DEPTH
    ensures deepest == if ok then ContainerDepth(Model(value)) else MAX_BODY_DEPTH + 1
  {
    if value.Leaf? {
      return true, 0;
    }
    ok, deepest := AssertContainerWithinDepth(value.node);
  }

  method AssertContainerWithinDepth(body: Node) returns (ok: bool, ghost deepest: nat)
    requires body.Valid()
    ensures ok <==> ContainerDepth(body.model) <= MAX_BODY_DEPTH
    ensures deepest == if ok then ContainerDepth(body.model) else MAX_BODY_DEPTH + 1
  {
    assert MAX_BODY_DEPTH >= 1;
    hide *;
    TrackBody(body);
    var stack := [body.cells];
    ghost var levels := [body.model.Children()];
    deepest := 1;
    while stack != []
      invariant |stack| == |levels| <= deepest <= MAX_BODY_DEPTH + 1
      invariant deepest > MAX_BODY_DEPTH ==> |stack| > MAX_BODY_DEPTH
      invariant Tracks(stack, levels, body)
      invariant Explains(levels, deepest, ContainerDepth(body.model))
      decreases Left(levels)
    {
      if |stack| > MAX_BODY_DEPTH {
        TooDeep(levels, deepest, ContainerDepth(body.model));
        return false, deepest;
      }
      if stack[|stack| - 1] == [] {
        LeaveContainer(stack, levels, body, deepest);
        stack, levels := stack[..|stack| - 1], levels[..|levels| - 1];
      } else {
        ghost var reached := EnterChild(stack, levels, body, deepest);
        stack, levels, deepest := ReadChild(stack), AfterChild(levels), reached;
      }
    }
    NothingLeft(deepest, ContainerDepth(body.model));
    return true, deepest;
  }

  lemma TooDeep(levels: seq<seq<Json>>, deepest: nat, depth: nat)
    requires Explains(levels, deepest, depth)
    ensures deepest <= depth
  {
    assert Fits(levels, depth) && deepest <= depth <==> depth <= depth;
  }

  lemma NothingLeft(deepest: nat, depth: nat)
    requires Explains([], deepest, depth)
    ensures deepest == depth
  {
    assert Fits([], deepest) && deepest <= deepest <==> depth <= deepest;
    assert Fits([], depth) && deepest <= depth <==> depth <= depth;
  }
}
