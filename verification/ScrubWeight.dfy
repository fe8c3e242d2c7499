/** How much a scrub takes off the body: a weight that every removal lowers. */
module ScrubWeight {
  import opened Text
  import opened Json
  import opened ScrubWalk
  import Shapes = CredentialShapes
  import Guarantees = ScrubGuarantees

  predicate HoldsContainer(p: Platform, text: string) {
    p.loads(text).Loaded? && p.loads(text).v.IsContainer()
  }

  /** Every container, every entry and every list element weighs 1, a text as much as the container
      it decodes to, or one per character. */
  function Weight(p: Platform, v: Json, budget: nat): nat
    decreases budget, if v.Str? then 1 else 0, 0
  {
    match v
    case Str(s) => if HoldsContainer(p, s) then Weight(p, p.loads(s).v, budget) else |s|
    case Arr(items) => if budget == 0 then 0 else 1 + WeightOfItems(p, items, budget - 1)
    case Obj(entries) => if budget == 0 then 0 else 1 + WeightOfEntries(p, entries, budget - 1)
    case _ => 0
  }

  function WeightOfItems(p: Platform, items: seq<Json>, budget: nat): nat
    decreases budget, 2, |items|
  {
    if items == [] then 0 else 1 + Weight(p, items[0], budget) + WeightOfItems(p, items[1..], budget)
  }

  function WeightOfEntries(p: Platform, entries: seq<Entry>, budget: nat): nat
    decreases budget, 2, |entries|
  {
    if entries == [] then 0 else 1 + Weight(p, entries[0].val, budget) + WeightOfEntries(p, entries[1..], budget)
  }

  /** JSON text is no shorter than what it says: brackets, quotes and commas stand for containers,
      keys and elements, and decoding never lengthens a string. */
  ghost predicate Compact(p: Platform) {
    forall s: string, budget: nat | HoldsContainer(p, s) :: Weight(p, p.loads(s).v, budget) <= |s|
  }

  /** The weight as the scrub finds it: a text it does not take for JSON, because it is over the
      length cap, counts by its length whatever it holds. */
  function Heavy(p: Platform, v: Json, budget: nat): nat
    decreases budget, if v.Str? then 1 else 0, 0
  {
    match v
    case Str(s) => if Embedded(p, s).Loaded? then Heavy(p, Embedded(p, s).v, budget) else |s|
    case Arr(items) => if budget == 0 then 0 else 1 + HeavyItems(p, items, budget - 1)
    case Obj(entries) => if budget == 0 then 0 else 1 + HeavyEntries(p, entries, budget - 1)
    case _ => 0
  }

  function HeavyItems(p: Platform, items: seq<Json>, budget: nat): nat
    decreases budget, 2, |items|
  {
    if items == [] then 0 else 1 + Heavy(p, items[0], budget) + HeavyItems(p, items[1..], budget)
  }

  function HeavyEntries(p: Platform, entries: seq<Entry>, budget: nat): nat
    decreases budget, 2, |entries|
  {
    if entries == [] then 0 else 1 + Heavy(p, entries[0].val, budget) + HeavyEntries(p, entries[1..], budget)
  }

  /** No body is found lighter than it is. */
  lemma {:induction false} FoundNoLighter(p: Platform, v: Json, budget: nat)
    requires Compact(p)
    ensures Weight(p, v, budget) <= Heavy(p, v, budget)
    decreases budget, if v.Str? then 1 else 0, 0
  {
    match v
    case Str(s) => if Embedded(p, s).Loaded? { FoundNoLighter(p, Embedded(p, s).v, budget); }
    case Arr(items) => if budget > 0 { ItemsNoLighter(p, items, budget - 1); }
    case Obj(entries) => if budget > 0 { EntriesNoLighter(p, entries, budget - 1); }
    case _ =>
  }

  lemma {:induction false} ItemsNoLighter(p: Platform, items: seq<Json>, budget: nat)
    requires Compact(p)
    ensures WeightOfItems(p, items, budget) <= HeavyItems(p, items, budget)
    decreases budget, 2, |items|
  {
    hide Weight, Heavy, Compact;
    if items != [] {
      FoundNoLighter(p, items[0], budget);
      ItemsNoLighter(p, items[1..], budget);
    }
  }

  lemma {:induction false} EntriesNoLighter(p: Platform, entries: seq<Entry>, budget: nat)
    requires Compact(p)
    ensures WeightOfEntries(p, entries, budget) <= HeavyEntries(p, entries, budget)
    decreases budget, 2, |entries|
  {
    hide Weight, Heavy, Compact;
    if entries != [] {
      FoundNoLighter(p, entries[0].val, budget);
      EntriesNoLighter(p, entries[1..], budget);
    }
  }

  lemma {:induction false} ContainerSheds(p: Platform, v: Json, depth: nat)
    requires p.RoundTrips() && Compact(p) && v.IsContainer() && WellFormed(v) && depth <= MAX_BODY_DEPTH
    requires ScrubContainer(p, v, depth).Done?
    ensures var r := ScrubContainer(p, v, depth);
      Weight(p, r.value, MAX_BODY_DEPTH - depth) + r.removed <= Heavy(p, v, MAX_BODY_DEPTH - depth)
    decreases Remaining(depth), 3, 0
  {
    hide Compact, Platform.RoundTrips;
    if v.Arr? {
      forall i | 0 <= i < |v.items| ensures WellFormed(v.items[i]) {
        assert WellFormed(v.Children()[i]);
      }
      ItemsShed(p, v.items, depth);
    } else {
      forall i | 0 <= i < |v.entries| ensures WellFormed(v.entries[i].val) {
        assert WellFormed(v.Children()[i]);
      }
      EntriesShed(p, v.entries, depth);
    }
  }

  lemma ParsedIsWellFormed(p: Platform, text: string)
    requires p.RoundTrips()
    ensures Embedded(p, text).Loaded? ==> WellFormed(Embedded(p, text).v)
  {
  }

  lemma TextWeighsItsLength(p: Platform, text: string, budget: nat)
    requires Compact(p)
    ensures Weight(p, Str(text), budget) <= |text|
  {
  }

  lemma {:induction false} StringSheds(p: Platform, text: string, depth: nat)
    requires p.RoundTrips() && Compact(p) && depth < MAX_BODY_DEPTH
    requires ScrubString(p, text, depth).Done?
    ensures var r := ScrubString(p, text, depth);
      Weight(p, Str(r.value), MAX_BODY_DEPTH - depth - 1) + r.removed <= Heavy(p, Str(text), MAX_BODY_DEPTH - depth - 1)
    decreases Remaining(depth), 0, 0
  {
    hide Compact, WellFormed, Shapes.ScrubbedText, ContainerDepth, Platform.RoundTrips, ScrubContainer;
    if Embedded(p, text).Loaded? {
      var v := Embedded(p, text).v;
      ParsedIsWellFormed(p, text);
      Guarantees.ContainerTold(p, v, depth + 1);
      ContainerSheds(p, v, depth + 1);
      Guarantees.ParsesBack(p, ScrubContainer(p, v, depth + 1).value);
      FoundNoLighter(p, Str(text), MAX_BODY_DEPTH - depth - 1);
    } else {
      Shapes.TextShrinksByItsRemovals(text);
      TextWeighsItsLength(p, Shapes.ScrubbedText(text).0, MAX_BODY_DEPTH - depth - 1);
    }
  }

  lemma {:induction false} ChildSheds(p: Platform, v: Json, depth: nat)
    requires p.RoundTrips() && Compact(p) && WellFormed(v) && depth < MAX_BODY_DEPTH
    requires ScrubChild(p, v, depth).Done?
    ensures var r := ScrubChild(p, v, depth);
      (if r.value.Kept? then Weight(p, r.value.v, MAX_BODY_DEPTH - depth - 1) else 0) + r.removed
      <= Heavy(p, v, MAX_BODY_DEPTH - depth - 1)
    decreases Remaining(depth), 1, 0
  {
    hide Compact, WellFormed, Weight, Heavy, Platform.RoundTrips, ScrubString, ScrubContainer;
    FoundNoLighter(p, v, MAX_BODY_DEPTH - depth - 1);
    if v.Str? {
      StringSheds(p, v.s, depth);
      assert v == Str(v.s);
    } else if v.IsContainer() {
      ContainerSheds(p, v, depth + 1);
    }
  }

  lemma {:induction false} ItemsShed(p: Platform, items: seq<Json>, depth: nat)
    requires p.RoundTrips() && Compact(p) && depth < MAX_BODY_DEPTH && ScrubItems(p, items, depth).Done?
    requires forall i | 0 <= i < |items| :: WellFormed(items[i])
    ensures var r := ScrubItems(p, items, depth);
      WeightOfItems(p, r.value, MAX_BODY_DEPTH - depth - 1) + r.removed
      <= HeavyItems(p, items, MAX_BODY_DEPTH - depth - 1)
    decreases Remaining(depth), 2, |items|
  {
    hide Compact, WellFormed, Weight, Heavy, ScrubChild, Platform.RoundTrips;
    if items != [] {
      ChildSheds(p, items[0], depth);
      ItemsShed(p, items[1..], depth);
      var slot, rest := ScrubChild(p, items[0], depth).value, ScrubItems(p, items[1..], depth).value;
      assert slot.Kept? ==> ([slot.v] + rest)[1..] == rest;
    }
  }

  lemma {:induction false} EntriesShed(p: Platform, entries: seq<Entry>, depth: nat)
    requires p.RoundTrips() && Compact(p) && depth < MAX_BODY_DEPTH && ScrubEntries(p, entries, depth).Done?
    requires forall i | 0 <= i < |entries| :: WellFormed(entries[i].val)
    ensures var r := ScrubEntries(p, entries, depth);
      WeightOfEntries(p, r.value, MAX_BODY_DEPTH - depth - 1) + r.removed
      <= HeavyEntries(p, entries, MAX_BODY_DEPTH - depth - 1)
    decreases Remaining(depth), 2, |entries|
  {
    hide Compact, WellFormed, Weight, Heavy, ScrubChild, Platform.RoundTrips, IsCredentialKey;
    if entries != [] {
      if !IsCredentialKey(p, entries[0].key) {
        ChildSheds(p, entries[0].val, depth);
      }
      EntriesShed(p, entries[1..], depth);
      var slot, rest := ScrubEntry(p, entries[0], depth).value, ScrubEntries(p, entries[1..], depth).value;
      assert slot.Kept? ==> ([Entry(entries[0].key, slot.v)] + rest)[1..] == rest;
    }
  }

  /** Every removal takes at least 1 off the weight of the body, seen through its embedded strings. */
  lemma EveryRemovalLightens(p: Platform, v: Json)
    requires p.RoundTrips() && Compact(p) && WellFormed(v) && Scrub(p, v).Done?
    ensures var budget := if v.Str? then MAX_BODY_DEPTH - 1 else MAX_BODY_DEPTH;
      Weight(p, Scrub(p, v).value, budget) + Scrub(p, v).removed <= Heavy(p, v, budget)
  {
    hide Compact, WellFormed, Weight, Heavy, ScrubContainer, ScrubString, Platform.RoundTrips;
    if v.IsContainer() {
      ContainerSheds(p, v, 0);
    } else if v.Str? {
      StringSheds(p, v.s, 0);
    } else {
      FoundNoLighter(p, v, MAX_BODY_DEPTH);
    }
  }

  // ----- bodies that are found as they are ------------------------------------------------

  /** JSON text of a container begins with a bracket. */
  ghost predicate Bracketed(p: Platform) {
    forall s: string | HoldsContainer(p, s) :: Strip(s) != "" && (Strip(s)[0] == '{' || Strip(s)[0] == '[')
  }

  /** No text over the length cap holds a container. */
  predicate TextsAreRead(p: Platform, v: Json, budget: nat)
    decreases budget, if v.Str? then 1 else 0
  {
    match v
    case Str(s) => HoldsContainer(p, s) ==> |s| <= MAX_EMBEDDED_JSON_CHARS && TextsAreRead(p, p.loads(s).v, budget)
    case Arr(items) => budget > 0 ==> forall i | 0 <= i < |items| :: TextsAreRead(p, items[i], budget - 1)
    case Obj(entries) => budget > 0 ==> forall i | 0 <= i < |entries| :: TextsAreRead(p, entries[i].val, budget - 1)
    case _ => true
  }

  lemma {:induction false} FoundAsItIs(p: Platform, v: Json, budget: nat)
    requires Bracketed(p) && TextsAreRead(p, v, budget)
    ensures Heavy(p, v, budget) == Weight(p, v, budget)
    decreases budget, if v.Str? then 1 else 0, 0
  {
    match v
    case Str(s) => if Embedded(p, s).Loaded? { FoundAsItIs(p, Embedded(p, s).v, budget); }
    case Arr(items) => if budget > 0 { ItemsAsTheyAre(p, items, budget - 1); }
    case Obj(entries) => if budget > 0 { EntriesAsTheyAre(p, entries, budget - 1); }
    case _ =>
  }

  lemma {:induction false} ItemsAsTheyAre(p: Platform, items: seq<Json>, budget: nat)
    requires Bracketed(p) && forall i | 0 <= i < |items| :: TextsAreRead(p, items[i], budget)
    ensures HeavyItems(p, items, budget) == WeightOfItems(p, items, budget)
    decreases budget, 2, |items|
  {
    hide Weight, Heavy, Bracketed, TextsAreRead;
    if items != [] {
      FoundAsItIs(p, items[0], budget);
      ItemsAsTheyAre(p, items[1..], budget);
    }
  }

  lemma {:induction false} EntriesAsTheyAre(p: Platform, entries: seq<Entry>, budget: nat)
    requires Bracketed(p) && forall i | 0 <= i < |entries| :: TextsAreRead(p, entries[i].val, budget)
    ensures HeavyEntries(p, entries, budget) == WeightOfEntries(p, entries, budget)
    decreases budget, 2, |entries|
  {
    hide Weight, Heavy, Bracketed, TextsAreRead;
    if entries != [] {
      FoundAsItIs(p, entries[0].val, budget);
      EntriesAsTheyAre(p, entries[1..], budget);
    }
  }

  /** When no text over the cap holds JSON, the weight itself drops by at least the count. */
  lemma WeightDrops(p: Platform, v: Json)
    requires p.RoundTrips() && Compact(p) && Bracketed(p) && WellFormed(v) && Scrub(p, v).Done?
    requires TextsAreRead(p, v, if v.Str? then MAX_BODY_DEPTH - 1 else MAX_BODY_DEPTH)
    ensures var budget := if v.Str? then MAX_BODY_DEPTH - 1 else MAX_BODY_DEPTH;
      Weight(p, Scrub(p, v).value, budget) + Scrub(p, v).removed <= Weight(p, v, budget)
  {
    hide Weight, Heavy, Bracketed, Compact, TextsAreRead, Platform.RoundTrips, Scrub, WellFormed;
    EveryRemovalLightens(p, v);
    FoundAsItIs(p, v, if v.Str? then MAX_BODY_DEPTH - 1 else MAX_BODY_DEPTH);
  }
}
