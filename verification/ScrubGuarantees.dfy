/** What a completed scrub guarantees about the body it returns and the count it reports. */
module ScrubGuarantees {
  import opened Text
  import opened Json
  import opened ScrubWalk
  import Shapes = CredentialShapes

  // ----- the count is zero exactly when nothing changed -----------------------------------

  /** `w` is the scrubbed form of `v` with `n` removals: the count tells whether they differ, and `w`
      is no deeper than the budget. */
  ghost predicate Told(v: Json, w: Json, n: nat, budget: nat) {
    WellFormed(w) && ContainerDepth(w) <= budget && (n == 0 <==> w == v)
  }

  lemma ItemsDepth(v: Json, budget: nat)
    requires v.IsContainer() && forall i | 0 <= i < |v.Children()| :: ContainerDepth(v.Children()[i]) <= budget
    ensures ContainerDepth(v) <= budget + 1
  {
  }

  lemma ScalarDepth(v: Json)
    requires !v.IsContainer()
    ensures ContainerDepth(v) == 0 && WellFormed(v)
  {
  }

  lemma ParsesBack(p: Platform, w: Json)
    requires p.RoundTrips() && w.IsContainer() && WellFormed(w) && ContainerDepth(w) <= MAX_BODY_DEPTH
    ensures p.loads(p.dumps(w)) == Loaded(w)
  {
  }

  lemma {:induction false} ContainerTold(p: Platform, v: Json, depth: nat)
    requires p.RoundTrips() && v.IsContainer() && WellFormed(v) && ScrubContainer(p, v, depth).Done?
    ensures depth <= MAX_BODY_DEPTH
    ensures var r := ScrubContainer(p, v, depth);
      r.value.Arr? == v.Arr? && r.value.Obj? == v.Obj? && Told(v, r.value, r.removed, MAX_BODY_DEPTH - depth)
    decreases Remaining(depth), 3, 0
  {
    hide ContainerDepth, Platform.RoundTrips;
    var r := ScrubContainer(p, v, depth);
    if v.Arr? {
      forall i | 0 <= i < |v.items| ensures WellFormed(v.items[i]) {
        assert WellFormed(v.Children()[i]);
      }
      ItemsTold(p, v.items, depth);
    } else {
      forall i | 0 <= i < |v.entries| ensures WellFormed(v.entries[i].val) {
        assert WellFormed(v.Children()[i]);
      }
      EntriesTold(p, v.entries, depth);
    }
    ItemsDepth(r.value, MAX_BODY_DEPTH - depth - 1);
  }

  lemma {:induction false} StringTold(p: Platform, text: string, depth: nat)
    requires p.RoundTrips() && depth < MAX_BODY_DEPTH && ScrubString(p, text, depth).Done?
    ensures ScrubString(p, text, depth).removed == 0 <==> ScrubString(p, text, depth).value == text
    decreases Remaining(depth), 0, 0
  {
    hide WellFormed, ContainerDepth;
    match Embedded(p, text)
    case NotJson => Shapes.TextShrinksByItsRemovals(text);
    case Loaded(v) => ContainerTold(p, v, depth + 1);
  }

  lemma {:induction false} ChildTold(p: Platform, v: Json, depth: nat)
    requires p.RoundTrips() && depth < MAX_BODY_DEPTH && WellFormed(v) && ScrubChild(p, v, depth).Done?
    ensures var r := ScrubChild(p, v, depth);
      if r.value.Kept? then Told(v, r.value.v, r.removed, MAX_BODY_DEPTH - depth - 1) else r.removed > 0
    decreases Remaining(depth), 1, 0
  {
    hide WellFormed, ContainerDepth, Platform.RoundTrips, ScrubString, ScrubContainer;
    if v.IsContainer() {
      ContainerTold(p, v, depth + 1);
    } else {
      if v.Str? {
        StringTold(p, v.s, depth);
      }
      if ScrubChild(p, v, depth).value.Kept? {
        ScalarDepth(ScrubChild(p, v, depth).value.v);
      }
    }
  }

  lemma {:induction false} ItemsTold(p: Platform, items: seq<Json>, depth: nat)
    requires p.RoundTrips() && depth < MAX_BODY_DEPTH && ScrubItems(p, items, depth).Done?
    requires forall i | 0 <= i < |items| :: WellFormed(items[i])
    ensures var r := ScrubItems(p, items, depth);
      && |r.value| <= |items|
      && (forall i | 0 <= i < |r.value| ::
            WellFormed(r.value[i]) && ContainerDepth(r.value[i]) <= MAX_BODY_DEPTH - depth - 1)
      && (r.removed == 0 <==> r.value == items)
    decreases Remaining(depth), 2, |items|
  {
    hide WellFormed, ScrubChild, ContainerDepth, Platform.RoundTrips;
    if items != [] {
      ChildTold(p, items[0], depth);
      ItemsTold(p, items[1..], depth);
      assert items == [items[0]] + items[1..];
    }
  }

  predicate KeysFrom(small: seq<Entry>, big: seq<Entry>) {
    forall i | 0 <= i < |small| :: HasKey(big, small[i].key)
  }

  lemma {:induction false} EntriesTold(p: Platform, entries: seq<Entry>, depth: nat)
    requires p.RoundTrips() && depth < MAX_BODY_DEPTH && ScrubEntries(p, entries, depth).Done?
    requires DistinctKeys(entries)
    requires forall i | 0 <= i < |entries| :: WellFormed(entries[i].val)
    ensures var r := ScrubEntries(p, entries, depth);
      && |r.value| <= |entries|
      && DistinctKeys(r.value) && KeysFrom(r.value, entries)
      && (forall i | 0 <= i < |r.value| ::
            WellFormed(r.value[i].val) && ContainerDepth(r.value[i].val) <= MAX_BODY_DEPTH - depth - 1)
      && (r.removed == 0 <==> r.value == entries)
    decreases Remaining(depth), 2, |entries|
  {
    hide WellFormed, IsCredentialKey, ScrubChild, ContainerDepth, Platform.RoundTrips;
    if entries != [] {
      if !IsCredentialKey(p, entries[0].key) {
        ChildTold(p, entries[0].val, depth);
      }
      EntriesTold(p, entries[1..], depth);
      assert entries == [entries[0]] + entries[1..];
      KeysOfTail(entries, ScrubEntries(p, entries[1..], depth).value);
    }
  }

  lemma KeysOfTail(entries: seq<Entry>, rest: seq<Entry>)
    requires entries != [] && DistinctKeys(entries) && DistinctKeys(rest) && KeysFrom(rest, entries[1..])
    ensures KeysFrom(rest, entries)
    ensures forall v ::
      DistinctKeys([Entry(entries[0].key, v)] + rest) && KeysFrom([Entry(entries[0].key, v)] + rest, entries)
  {
    forall i | 0 <= i < |rest|
      ensures rest[i].key != entries[0].key && HasKey(entries, rest[i].key)
    {
      assert HasKey(entries[1..], rest[i].key);
      var k :| 0 <= k < |entries[1..]| && entries[1..][k].key == rest[i].key;
      assert entries[k + 1].key == rest[i].key;
    }
  }

  /** The reported count is 0 exactly when the returned body equals the one that was given. */
  lemma CountIsZeroIffUnchanged(p: Platform, v: Json)
    requires p.RoundTrips() && WellFormed(v) && Scrub(p, v).Done?
    ensures Scrub(p, v).removed == 0 <==> Scrub(p, v).value == v
    ensures WellFormed(Scrub(p, v).value)
  {
    if v.IsContainer() {
      ContainerTold(p, v, 0);
    } else if v.Str? {
      StringTold(p, v.s, 0);
    }
  }

  // ----- which texts are taken for JSON ---------------------------------------------------

  /** The first character that is not a space opens a JSON container. */
  predicate OpensContainer(text: string) {
    exists i | 0 <= i < |text| :: (text[i] == '{' || text[i] == '[') && Blank(text[..i])
  }

  lemma OpensIff(text: string)
    ensures OpensContainer(text) <==> Strip(text) != "" && (Strip(text)[0] == '{' || Strip(text)[0] == '[')
  {
    hide Strip, Blank;
    StripTakesTheBlankEnds(text);
    var i: nat, j: nat :| i <= j <= |text| && text[i..j] == Strip(text) && Blank(text[..i]) && Blank(text[j..]);
    FirstContent(text, i, j);
    if OpensContainer(text) {
      var k :| 0 <= k < |text| && (text[k] == '{' || text[k] == '[') && Blank(text[..k]);
      SameFirst(text, i, k);
    }
  }

  lemma FirstContent(text: string, i: nat, j: nat)
    requires i <= j <= |text| && text[i..j] == Strip(text) && Blank(text[j..])
    ensures Strip(text) == "" <==> Blank(text)
    ensures Strip(text) != "" ==> i < |text| && !IsSpace(text[i]) && text[i] == Strip(text)[0]
  {
    hide StripLeft, StripRight, IsSpace;
  }

  lemma SameFirst(text: string, i: nat, k: nat)
    requires i <= |text| && k < |text| && Blank(text[..i]) && Blank(text[..k])
    requires text[k] == '{' || text[k] == '['
    ensures !Blank(text) && (i < |text| && !IsSpace(text[i]) ==> i == k)
  {
    assert !IsSpace(text[k]);
    assert forall m | 0 <= m < i :: text[..i][m] == text[m];
    assert forall m | 0 <= m < k :: text[..k][m] == text[m];
  }

  /** A text is taken for JSON exactly when a bracket opens it, it is no longer than the cap and it
      decodes to a container; the decoder's overflow is met under the same conditions. */
  lemma EmbeddedIff(p: Platform, text: string)
    ensures forall v :: Embedded(p, text) == Loaded(v) <==>
      OpensContainer(text) && |text| <= 1048576 && p.loads(text) == Loaded(v) && v.IsContainer()
    ensures Embedded(p, text) == DecoderOverflow <==>
      OpensContainer(text) && |text| <= 1048576 && p.loads(text) == DecoderOverflow
  {
    hide Strip, OpensContainer;
    OpensIff(text);
  }

  // ----- what survives --------------------------------------------------------------------

  /** The string was nothing but credential material. */
  predicate BlankedOut(p: Platform, x: Json) {
    x.Str? && Embedded(p, x.s).NotJson? && Shapes.HasCredentialShape(x.s) && Blank(Shapes.ScrubbedText(x.s).0)
  }

  /** `y` is what may be left of `x`. In every dict of `y`, and in every dict inside a string that
      `x` had an embedded container in, at any nesting of the two: no key is a credential name,
      and the entries are entries of the dict in `x`, in their order and under their keys. Lists
      keep the order of their elements. Exactly the credential keys and the strings that were all
      credential material are gone. */
  predicate Cleaned(p: Platform, x: Json, y: Json, budget: nat)
    decreases budget, if x.Str? then 1 else 0, 0
  {
    match x
    case Str(s) =>
      y.Str? &&
      (match Embedded(p, s)
       case NotJson => y.s == Shapes.ScrubbedText(s).0
       case DecoderOverflow => false
       case Loaded(v) => p.loads(y.s).Loaded? && Cleaned(p, v, p.loads(y.s).v, budget))
    case Arr(items) => y.Arr? && budget > 0 && ItemsCleaned(p, items, y.items, budget - 1)
    case Obj(entries) =>
      && y.Obj? && budget > 0
      && (forall i | 0 <= i < |y.entries| :: !IsCredentialKey(p, y.entries[i].key))
      && EntriesCleaned(p, entries, y.entries, budget - 1)
    case _ => y == x
  }

  predicate ItemsCleaned(p: Platform, xs: seq<Json>, ys: seq<Json>, budget: nat)
    decreases budget, 2, |xs|
  {
    if xs == [] then ys == []
    else if BlankedOut(p, xs[0]) then ItemsCleaned(p, xs[1..], ys, budget)
    else ys != [] && Cleaned(p, xs[0], ys[0], budget) && ItemsCleaned(p, xs[1..], ys[1..], budget)
  }

  predicate EntriesCleaned(p: Platform, xs: seq<Entry>, ys: seq<Entry>, budget: nat)
    decreases budget, 2, |xs|
  {
    if xs == [] then ys == []
    else if IsCredentialKey(p, xs[0].key) || BlankedOut(p, xs[0].val) then EntriesCleaned(p, xs[1..], ys, budget)
    else
      && ys != [] && xs[0].key == ys[0].key && Cleaned(p, xs[0].val, ys[0].val, budget)
      && EntriesCleaned(p, xs[1..], ys[1..], budget)
  }

  lemma {:induction false} ContainerCleaned(p: Platform, v: Json, depth: nat)
    requires p.Lawful() && v.IsContainer() && WellFormed(v) && depth <= MAX_BODY_DEPTH
        && ScrubContainer(p, v, depth).Done?
    ensures Cleaned(p, v, ScrubContainer(p, v, depth).value, MAX_BODY_DEPTH - depth)
    decreases Remaining(depth), 3, 0
  {
    hide IsCredentialKey, ContainerDepth, Platform.Lawful;
    if v.Arr? {
      forall i | 0 <= i < |v.items| ensures WellFormed(v.items[i]) {
        assert WellFormed(v.Children()[i]);
      }
      ItemsAreCleaned(p, v.items, depth);
    } else {
      forall i | 0 <= i < |v.entries| ensures WellFormed(v.entries[i].val) {
        assert WellFormed(v.Children()[i]);
      }
      EntriesAreCleaned(p, v.entries, depth);
    }
  }

  lemma {:induction false} StringCleaned(p: Platform, text: string, depth: nat)
    requires p.Lawful() && depth < MAX_BODY_DEPTH && ScrubString(p, text, depth).Done?
    ensures Cleaned(p, Str(text), Str(ScrubString(p, text, depth).value), MAX_BODY_DEPTH - depth - 1)
    decreases Remaining(depth), 0, 0
  {
    hide WellFormed, ContainerDepth, ScrubContainer;
    if Embedded(p, text).Loaded? {
      var v := Embedded(p, text).v;
      ContainerTold(p, v, depth + 1);
      ContainerCleaned(p, v, depth + 1);
      var w := ScrubContainer(p, v, depth + 1).value;
      ParsesBack(p, w);
      assert p.loads(ScrubString(p, text, depth).value) == Loaded(w);
    }
  }

  lemma {:induction false} ChildCleaned(p: Platform, v: Json, depth: nat)
    requires p.Lawful() && WellFormed(v) && depth < MAX_BODY_DEPTH && ScrubChild(p, v, depth).Done?
    ensures var slot := ScrubChild(p, v, depth).value;
      && (slot.Dropped? <==> BlankedOut(p, v))
      && (slot.Kept? ==> Cleaned(p, v, slot.v, MAX_BODY_DEPTH - depth - 1))
    decreases Remaining(depth), 1, 0
  {
    hide WellFormed, ContainerDepth, ScrubContainer, ScrubString, Cleaned, BlankedOut;
    OnlyTextsAreBlankedOut(p, v);
    if v.Str? {
      assert v == Str(v.s);
      StringCleaned(p, v.s, depth);
      StringTold(p, v.s, depth);
      DroppedIffBlankedOut(p, v.s, depth);
    } else if v.IsContainer() {
      ContainerCleaned(p, v, depth + 1);
    } else {
      ScalarIsClean(p, v, MAX_BODY_DEPTH - depth - 1);
    }
  }

  lemma OnlyTextsAreBlankedOut(p: Platform, v: Json)
    ensures BlankedOut(p, v) ==> v.Str?
  {
  }

  lemma DroppedIffBlankedOut(p: Platform, text: string, depth: nat)
    requires p.Lawful() && depth < MAX_BODY_DEPTH && ScrubString(p, text, depth).Done?
    ensures ScrubString(p, text, depth).removed > 0 && Blank(ScrubString(p, text, depth).value) <==>
      BlankedOut(p, Str(text))
  {
    hide WellFormed, ContainerDepth, ScrubContainer, Shapes.ScrubbedText;
    if Embedded(p, text).Loaded? {
      var v := Embedded(p, text).v;
      ContainerTold(p, v, depth + 1);
      ParsesBack(p, ScrubContainer(p, v, depth + 1).value);
    }
  }

  lemma {:induction false} ItemsAreCleaned(p: Platform, items: seq<Json>, depth: nat)
    requires p.Lawful() && depth < MAX_BODY_DEPTH && ScrubItems(p, items, depth).Done?
    requires forall i | 0 <= i < |items| :: WellFormed(items[i])
    ensures ItemsCleaned(p, items, ScrubItems(p, items, depth).value, MAX_BODY_DEPTH - depth - 1)
    decreases Remaining(depth), 2, |items|
  {
    hide WellFormed, Cleaned, BlankedOut;
    if items != [] {
      ChildCleaned(p, items[0], depth);
      ItemsAreCleaned(p, items[1..], depth);
      var rest := ScrubItems(p, items[1..], depth).value;
      var slot := ScrubChild(p, items[0], depth).value;
      if slot.Kept? {
        assert ([slot.v] + rest)[1..] == rest;
      }
    }
  }

  lemma {:induction false} EntriesAreCleaned(p: Platform, entries: seq<Entry>, depth: nat)
    requires p.Lawful() && depth < MAX_BODY_DEPTH && ScrubEntries(p, entries, depth).Done?
    requires forall i | 0 <= i < |entries| :: WellFormed(entries[i].val)
    ensures var ys := ScrubEntries(p, entries, depth).value;
      && EntriesCleaned(p, entries, ys, MAX_BODY_DEPTH - depth - 1)
      && forall i | 0 <= i < |ys| :: !IsCredentialKey(p, ys[i].key)
    decreases Remaining(depth), 2, |entries|
  {
    hide WellFormed, Cleaned, BlankedOut, IsCredentialKey;
    if entries != [] {
      EntriesAreCleaned(p, entries[1..], depth);
      if !IsCredentialKey(p, entries[0].key) {
        ChildCleaned(p, entries[0].val, depth);
        var rest := ScrubEntries(p, entries[1..], depth).value;
        var slot := ScrubChild(p, entries[0].val, depth).value;
        if slot.Kept? {
          assert ([Entry(entries[0].key, slot.v)] + rest)[1..] == rest;
        }
      }
    }
  }

  /** A completed scrub returns a cleaned form of the body it was given. */
  lemma ScrubCleans(p: Platform, v: Json)
    requires p.Lawful() && WellFormed(v) && Scrub(p, v).Done?
    ensures Cleaned(p, v, Scrub(p, v).value, if v.Str? then MAX_BODY_DEPTH - 1 else MAX_BODY_DEPTH)
  {
    hide Cleaned, ScrubContainer, ScrubString, WellFormed, Platform.Lawful;
    if v.IsContainer() {
      ContainerCleaned(p, v, 0);
    } else if v.Str? {
      StringCleaned(p, v.s, 0);
    } else {
      ScalarIsClean(p, v, MAX_BODY_DEPTH);
    }
  }

  lemma ScalarIsClean(p: Platform, v: Json, budget: nat)
    requires !v.IsContainer() && !v.Str?
    ensures Cleaned(p, v, v, budget)
  {
  }

  /** No dict nested in `y` has a credential name among its keys. */
  predicate NoCredentialKeys(p: Platform, y: Json) {
    && (y.Obj? ==> forall i | 0 <= i < |y.entries| :: !IsCredentialKey(p, y.entries[i].key))
    && (y.IsContainer() ==> forall i | 0 <= i < |y.Children()| :: NoCredentialKeys(p, y.Children()[i]))
  }

  lemma {:induction false} CleanedHasNoCredentialKeys(p: Platform, x: Json, y: Json, budget: nat)
    requires Cleaned(p, x, y, budget)
    ensures NoCredentialKeys(p, y)
    decreases budget, 0, 0
  {
    hide IsCredentialKey, Embedded, Shapes.ScrubbedText;
    if x.Arr? {
      CleanedItemsHaveNone(p, x.items, y.items, budget - 1);
    } else if x.Obj? {
      CleanedEntriesHaveNone(p, x.entries, y.entries, budget - 1);
    }
  }

  lemma {:induction false} CleanedItemsHaveNone(p: Platform, xs: seq<Json>, ys: seq<Json>, budget: nat)
    requires ItemsCleaned(p, xs, ys, budget)
    ensures forall i | 0 <= i < |ys| :: NoCredentialKeys(p, ys[i])
    decreases budget, 1, |xs|
  {
    hide Cleaned, NoCredentialKeys, BlankedOut;
    if xs != [] {
      if !BlankedOut(p, xs[0]) {
        CleanedHasNoCredentialKeys(p, xs[0], ys[0], budget);
        CleanedItemsHaveNone(p, xs[1..], ys[1..], budget);
        assert forall i | 1 <= i < |ys| :: ys[i] == ys[1..][i - 1];
      } else {
        CleanedItemsHaveNone(p, xs[1..], ys, budget);
      }
    }
  }

  lemma {:induction false} CleanedEntriesHaveNone(p: Platform, xs: seq<Entry>, ys: seq<Entry>, budget: nat)
    requires EntriesCleaned(p, xs, ys, budget)
    ensures forall i | 0 <= i < |ys| :: NoCredentialKeys(p, ys[i].val)
    decreases budget, 1, |xs|
  {
    hide Cleaned, NoCredentialKeys, BlankedOut, IsCredentialKey;
    if xs != [] {
      if !IsCredentialKey(p, xs[0].key) && !BlankedOut(p, xs[0].val) {
        CleanedHasNoCredentialKeys(p, xs[0].val, ys[0].val, budget);
        CleanedEntriesHaveNone(p, xs[1..], ys[1..], budget);
        assert forall i | 1 <= i < |ys| :: ys[i] == ys[1..][i - 1];
      } else {
        CleanedEntriesHaveNone(p, xs[1..], ys, budget);
      }
    }
  }

  /** At any depth of the returned body, no dict key is a credential name. */
  lemma NoCredentialKeySurvives(p: Platform, v: Json)
    requires p.Lawful() && WellFormed(v) && Scrub(p, v).Done?
    ensures NoCredentialKeys(p, Scrub(p, v).value)
  {
    ScrubCleans(p, v);
    CleanedHasNoCredentialKeys(p, v, Scrub(p, v).value, if v.Str? then MAX_BODY_DEPTH - 1 else MAX_BODY_DEPTH);
  }

  /** A string that embeds a container comes back as text that parses to a container without
      credential keys, however the re-serialised text looks. */
  lemma EmbeddedJsonIsCleaned(p: Platform, text: string, depth: nat)
    requires p.Lawful() && depth < MAX_BODY_DEPTH && Embedded(p, text).Loaded? && ScrubString(p, text, depth).Done?
    ensures var back := p.loads(ScrubString(p, text, depth).value);
      && back.Loaded? && NoCredentialKeys(p, back.v)
      && Cleaned(p, Embedded(p, text).v, back.v, MAX_BODY_DEPTH - depth - 1)
  {
    hide WellFormed, ContainerDepth, ScrubContainer, ScrubString, Shapes.ScrubbedText, NoCredentialKeys, ItemsCleaned;
    StringCleaned(p, text, depth);
    var back := p.loads(ScrubString(p, text, depth).value);
    CleanedHasNoCredentialKeys(p, Embedded(p, text).v, back.v, MAX_BODY_DEPTH - depth - 1);
  }

  // ----- what the count counts ------------------------------------------------------------

  /** One for every credential key that is not itself under a credential key, and one for every
      excised match in every text that embeds no container. */
  function Removals(p: Platform, v: Json, budget: nat): nat
    decreases budget, if v.Str? then 1 else 0, 0
  {
    match v
    case Str(s) =>
      (match Embedded(p, s)
       case Loaded(w) => Removals(p, w, budget)
       case _ => Shapes.ScrubbedText(s).1)
    case Arr(items) => if budget == 0 then 0 else RemovalsInItems(p, items, budget - 1)
    case Obj(entries) => if budget == 0 then 0 else RemovalsInEntries(p, entries, budget - 1)
    case _ => 0
  }

  function RemovalsInItems(p: Platform, items: seq<Json>, budget: nat): nat
    decreases budget, 2, |items|
  {
    if items == [] then 0 else Removals(p, items[0], budget) + RemovalsInItems(p, items[1..], budget)
  }

  function RemovalsInEntries(p: Platform, entries: seq<Entry>, budget: nat): nat
    decreases budget, 2, |entries|
  {
    if entries == [] then 0
    else
      (if IsCredentialKey(p, entries[0].key) then 1 else Removals(p, entries[0].val, budget))
      + RemovalsInEntries(p, entries[1..], budget)
  }

  lemma {:induction false} ContainerCount(p: Platform, v: Json, depth: nat)
    requires v.IsContainer() && depth <= MAX_BODY_DEPTH && ScrubContainer(p, v, depth).Done?
    ensures ScrubContainer(p, v, depth).removed == Removals(p, v, MAX_BODY_DEPTH - depth)
    decreases Remaining(depth), 3, 0
  {
    if v.Arr? {
      ItemsCount(p, v.items, depth);
    } else {
      EntriesCount(p, v.entries, depth);
    }
  }

  lemma {:induction false} ChildCount(p: Platform, v: Json, depth: nat)
    requires depth < MAX_BODY_DEPTH && ScrubChild(p, v, depth).Done?
    ensures ScrubChild(p, v, depth).removed == Removals(p, v, MAX_BODY_DEPTH - depth - 1)
    decreases Remaining(depth), 1, 0
  {
    if v.Str? && Embedded(p, v.s).Loaded? {
      ContainerCount(p, Embedded(p, v.s).v, depth + 1);
    } else if v.IsContainer() {
      ContainerCount(p, v, depth + 1);
    }
  }

  lemma {:induction false} ItemsCount(p: Platform, items: seq<Json>, depth: nat)
    requires depth < MAX_BODY_DEPTH && ScrubItems(p, items, depth).Done?
    ensures ScrubItems(p, items, depth).removed == RemovalsInItems(p, items, MAX_BODY_DEPTH - depth - 1)
    decreases Remaining(depth), 2, |items|
  {
    hide Removals;
    if items != [] {
      ChildCount(p, items[0], depth);
      ItemsCount(p, items[1..], depth);
    }
  }

  lemma {:induction false} EntriesCount(p: Platform, entries: seq<Entry>, depth: nat)
    requires depth < MAX_BODY_DEPTH && ScrubEntries(p, entries, depth).Done?
    ensures ScrubEntries(p, entries, depth).removed == RemovalsInEntries(p, entries, MAX_BODY_DEPTH - depth - 1)
    decreases Remaining(depth), 2, |entries|
  {
    hide Removals, IsCredentialKey;
    if entries != [] {
      if !IsCredentialKey(p, entries[0].key) {
        ChildCount(p, entries[0].val, depth);
      }
      EntriesCount(p, entries[1..], depth);
    }
  }

  /** The reported count is exactly the number of removals. */
  lemma CountIsExact(p: Platform, v: Json)
    requires Scrub(p, v).Done?
    ensures Scrub(p, v).removed == Removals(p, v, if v.Str? then MAX_BODY_DEPTH - 1 else MAX_BODY_DEPTH)
  {
    if v.IsContainer() {
      ContainerCount(p, v, 0);
    } else if v.Str? && Embedded(p, v.s).Loaded? {
      ContainerCount(p, Embedded(p, v.s).v, 1);
    }
  }
}
