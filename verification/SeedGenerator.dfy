/** The parametric seed generator. */
module SeedGenerator {
  import opened Text
  import opened Wrappers
  import opened Numerals
  import opened SeedInvariants

  const SERVED_SCOPE := "payments-core"
  const OTHER_SCOPES := ["billing-internal", "hr-data", "infra-secrets", "analytics-warehouse",
      "partner-integrations", "legal-contracts"]
  const ALL_SCOPES := [SERVED_SCOPE] + OTHER_SCOPES
  const PREFIXES := ["PAY", "BIL", "HR", "INF", "ANA", "PAR", "LEG"]
  const MIN_COUNT := 10
  const FIXED := 6

  datatype Trap = Trap(scope: string, title: string, body: string)

  /** The seed texts. */
  datatype Pools = Pools(
    paymentTitles: seq<string>,
    paymentBodies: seq<string>,
    otherTitles: seq<string>,
    otherBodies: seq<string>,
    startBody: string,
    traps: seq<Trap>,
    markers: seq<string>)

  /** The facts the pool constants are written to meet. */
  ghost predicate SoundPools(lower: Lowering, p: Pools) {
    && Filled(p)
    && (forall i | 0 <= i < |p.paymentTitles| :: !Contains(lower(p.paymentTitles[i]), "refund"))
    && (forall i | 0 <= i < |p.paymentBodies| :: HasNoMarker(p.paymentBodies[i], p.markers))
    && HasNoMarker(p.startBody, p.markers)
    && (forall k | 0 <= k < 3 :: Contains(lower(p.traps[k].title), "refund"))
  }

  /** No pool is empty, and there is one trap for each of the first three other scopes. */
  predicate Filled(p: Pools) {
    && p.paymentTitles != [] && p.paymentBodies != [] && p.otherTitles != [] && p.otherBodies != []
    && |p.traps| == 3 && forall k | 0 <= k < 3 :: p.traps[k].scope == OTHER_SCOPES[k]
  }

  // ----- identifiers ----------------------------------------------------------------------

  /** Position of a scope in the prefix map. */
  function PrefixOf(scope: string, k: nat := 0): (r: Option<string>)
    requires k <= |ALL_SCOPES|
    ensures r.Some? <==> scope in ALL_SCOPES[k..]
    ensures r.Some? ==> r.value in PREFIXES
    decreases |ALL_SCOPES| - k
  {
    if k == |ALL_SCOPES| then None
    else if ALL_SCOPES[k] == scope then Some(PREFIXES[k])
    else PrefixOf(scope, k + 1)
  }

  /** None when the scope is not declared. */
  function MakeDocumentId(scope: string, n: nat): Option<string> {
    var prefix := PrefixOf(scope);
    if prefix.None? then None else Some(prefix.value + "-" + Padded(n, 3))
  }

  lemma PrefixesHaveNoDash(prefix: string)
    requires prefix in PREFIXES
    ensures '-' !in prefix
  {
    var k :| 0 <= k < |PREFIXES| && prefix == PREFIXES[k];
    assert '-' !in "PAY" && '-' !in "BIL" && '-' !in "HR" && '-' !in "INF" && '-' !in "ANA" && '-' !in "PAR"
        && '-' !in "LEG";
  }

  /** Two identifiers are equal only when prefix and number are, past 999 as before. */
  lemma IdsTellNumbersApart(p: string, m: nat, q: string, n: nat)
    requires '-' !in p && '-' !in q && p + "-" + Padded(m, 3) == q + "-" + Padded(n, 3)
    ensures p == q && m == n
  {
    hide Padded;
    var x, y := p + "-" + Padded(m, 3), q + "-" + Padded(n, 3);
    assert x[|p|] == '-' && forall k | 0 <= k < |p| :: x[k] == p[k] != '-';
    assert y[|q|] == '-' && forall k | 0 <= k < |q| :: y[k] == q[k] != '-';
    assert x[..|p|] == p && y[..|q|] == q;
    assert x[|p| + 1..] == Padded(m, 3) && y[|q| + 1..] == Padded(n, 3);
    PaddedIsReadBack(m, 3);
    PaddedIsReadBack(n, 3);
  }

  lemma DocumentIdsAreInjective(a: string, m: nat, b: string, n: nat)
    requires MakeDocumentId(a, m).Some? && MakeDocumentId(a, m) == MakeDocumentId(b, n)
    ensures m == n
  {
    hide PrefixOf, Padded;
    var p, q := PrefixOf(a).value, PrefixOf(b).value;
    PrefixesHaveNoDash(p);
    PrefixesHaveNoDash(q);
    IdsTellNumbersApart(p, m, q, n);
  }

  lemma ScopesDiffer(i: nat, k: nat)
    requires i < |ALL_SCOPES| && k < |ALL_SCOPES| && ALL_SCOPES[i] == ALL_SCOPES[k]
    ensures i == k
  {
    assert |ALL_SCOPES[i]| == [13, 16, 7, 13, 19, 20, 15][i] && |ALL_SCOPES[k]| == [13, 16, 7, 13, 19, 20, 15][k];
    assert ALL_SCOPES[0][0] == 'p' && ALL_SCOPES[3][0] == 'i';
  }

  lemma {:induction false} PrefixIsFound(i: nat, k: nat)
    requires i <= k < |ALL_SCOPES|
    ensures PrefixOf(ALL_SCOPES[k], i) == Some(PREFIXES[k])
    decreases k - i
  {
    hide ALL_SCOPES;
    if i < k {
      if ALL_SCOPES[i] == ALL_SCOPES[k] {
        ScopesDiffer(i, k);
      }
      PrefixIsFound(i + 1, k);
    }
  }

  /** The identifier names its scope. */
  lemma IdsNameTheirScope(k: nat, n: nat)
    requires k < |ALL_SCOPES|
    ensures |ALL_SCOPES| == 7
    ensures MakeDocumentId(ALL_SCOPES[k], n) ==
      Some(["PAY", "BIL", "HR", "INF", "ANA", "PAR", "LEG"][k] + "-" + Padded(n, 3))
  {
    hide PrefixOf, Padded;
    PrefixIsFound(0, k);
  }

  // ----- the documents --------------------------------------------------------------------

  function Pick(pool: seq<string>, index: nat): string
    requires pool != []
  {
    pool[index % |pool|]
  }

  function BuildDocument(scope: string, n: nat, title: string, body: string): SeedDocument
    requires scope in ALL_SCOPES
  {
    SeedDocument(scope, MakeDocumentId(scope, n).value, title, body, None)
  }

  lemma OtherIsDeclared(scope: string)
    ensures scope in OTHER_SCOPES ==> scope in ALL_SCOPES
    ensures SERVED_SCOPE in ALL_SCOPES
  {
    assert ALL_SCOPES[0] == SERVED_SCOPE;
    if scope in OTHER_SCOPES {
      var k :| 0 <= k < |OTHER_SCOPES| && OTHER_SCOPES[k] == scope;
      assert ALL_SCOPES[k + 1] == scope;
    }
  }

  /** The document of each slot, counted from 0: the starting document, three traps, two more of
      the served scope, then noise in rotation over the other scopes. */
  function Slot(p: Pools, i: nat): SeedDocument
    requires Filled(p)
  {
    OtherIsDeclared(OTHER_SCOPES[if 1 <= i <= 3 then i - 1 else i % 6]);
    if i == 0 then BuildDocument(SERVED_SCOPE, 1, Pick(p.paymentTitles, 0), p.startBody)
    else if i <= 3 then BuildDocument(p.traps[i - 1].scope, i + 1, p.traps[i - 1].title, p.traps[i - 1].body)
    else if i < FIXED then BuildDocument(SERVED_SCOPE, i + 1, Pick(p.paymentTitles, i - 3),
        Pick(p.paymentBodies, i - 4))
    else BuildDocument(OTHER_SCOPES[(i - FIXED) % 6], i + 1, Pick(p.otherTitles, i - FIXED),
        Pick(p.otherBodies, i - FIXED))
  }

  function Slots(p: Pools, count: nat): (docs: seq<SeedDocument>)
    requires Filled(p)
    ensures |docs| == count
  {
    seq(count, i requires 0 <= i => Slot(p, i))
  }

  lemma Sizes()
    ensures MIN_COUNT == 10 && FIXED == |OTHER_SCOPES| == 6
  {
  }

  lemma OneMoreSlot(p: Pools, n: nat)
    requires Filled(p)
    ensures Slots(p, n + 1) == Slots(p, n) + [Slot(p, n)]
  {
  }

  lemma StartSlot(p: Pools)
    requires Filled(p)
    ensures p.paymentTitles != [] && p.paymentBodies != [] && p.otherTitles != [] && p.otherBodies != []
        && |p.traps| == 3
    ensures SERVED_SCOPE in ALL_SCOPES
    ensures Slots(p, 1) == [BuildDocument(SERVED_SCOPE, 1, Pick(p.paymentTitles, 0), p.startBody)]
  {
    hide BuildDocument, Pick, PrefixOf;
    OtherIsDeclared(SERVED_SCOPE);
    OneMoreSlot(p, 0);
  }

  lemma TrapSlot(p: Pools, k: nat)
    requires Filled(p) && k < 3
    ensures p.traps[k].scope in ALL_SCOPES
    ensures Slot(p, k + 1) == BuildDocument(p.traps[k].scope, k + 2, p.traps[k].title, p.traps[k].body)
  {
    hide BuildDocument, PrefixOf;
    OtherIsDeclared(p.traps[k].scope);
  }

  lemma PaymentSlot(p: Pools, i: nat)
    requires Filled(p) && i < 2 && SERVED_SCOPE in ALL_SCOPES
    ensures Slot(p, i + 4) == BuildDocument(SERVED_SCOPE, i + 5, Pick(p.paymentTitles, i + 1), Pick(p.paymentBodies, i))
  {
    hide BuildDocument, Pick, PrefixOf;
  }

  lemma NoiseSlot(p: Pools, i: nat)
    requires Filled(p) && i >= FIXED
    ensures |OTHER_SCOPES| == 6 && OTHER_SCOPES[(i - FIXED) % 6] in ALL_SCOPES
    ensures Slot(p, i) == BuildDocument(OTHER_SCOPES[(i - FIXED) % 6], i + 1, Pick(p.otherTitles, i - FIXED),
        Pick(p.otherBodies, i - FIXED))
    ensures Slot(p, i).scope == OTHER_SCOPES[(i - FIXED) % 6]
  {
    hide MakeDocumentId, PrefixOf, Pick;
    OtherIsDeclared(OTHER_SCOPES[(i - FIXED) % 6]);
  }

  /** None when the count is too small or the verification raises. */
  method GenerateDocuments(lower: Lowering, p: Pools, count: int) returns (r: Option<seq<SeedDocument>>)
    requires Filled(p)
    ensures r.Some? <==> count >= MIN_COUNT && AllHold(lower, Slots(p, count), SERVED_SCOPE, ALL_SCOPES, p.markers)
    ensures r.Some? ==> r.value == Slots(p, count)
  {
    hide *;
    Sizes();
    if count < MIN_COUNT {
      return None;
    }
    StartSlot(p);
    var number: nat := 1;
    var documents := [BuildDocument(SERVED_SCOPE, number, Pick(p.paymentTitles, 0), p.startBody)];
    for k := 0 to |p.traps|
      invariant number == k + 1 && documents == Slots(p, number)
    {
      TrapSlot(p, k);
      OneMoreSlot(p, number);
      number := number + 1;
      documents := documents + [BuildDocument(p.traps[k].scope, number, p.traps[k].title, p.traps[k].body)];
    }
    for i := 0 to 2
      invariant number == i + 4 && documents == Slots(p, number)
    {
      PaymentSlot(p, i);
      OneMoreSlot(p, number);
      number := number + 1;
      documents := documents + [BuildDocument(SERVED_SCOPE, number, Pick(p.paymentTitles, i + 1),
          Pick(p.paymentBodies, i))];
    }
    var noise, titleIndex: nat, bodyIndex: nat := count - number, 0, 0;
    for i := 0 to noise
      invariant number == i + 6 && documents == Slots(p, number)
      invariant titleIndex == bodyIndex == i
    {
      NoiseSlot(p, number);
      OneMoreSlot(p, number);
      number := number + 1;
      var title, body := Pick(p.otherTitles, titleIndex), Pick(p.otherBodies, bodyIndex);
      titleIndex, bodyIndex := titleIndex + 1, bodyIndex + 1;
      documents := documents + [BuildDocument(OTHER_SCOPES[i % |OTHER_SCOPES|], number, title, body)];
    }
    var violated := VerifySeedInvariants(lower, documents, SERVED_SCOPE, ALL_SCOPES, p.markers);
    return if violated.None? then Some(documents) else None;
  }

  // ----- what is generated ----------------------------------------------------------------

  lemma OthersAreNotServed(k: nat)
    requires k < |OTHER_SCOPES|
    ensures OTHER_SCOPES[k] != SERVED_SCOPE
  {
    assert OTHER_SCOPES[k][0] != SERVED_SCOPE[0] || |OTHER_SCOPES[k]| != |SERVED_SCOPE|;
  }

  lemma DeclaredIsNotEmpty(scope: string)
    requires scope in ALL_SCOPES
    ensures scope != ""
  {
    var k :| 0 <= k < |ALL_SCOPES| && ALL_SCOPES[k] == scope;
    assert k > 0 ==> ALL_SCOPES[k] == OTHER_SCOPES[k - 1];
  }

  lemma SlotIdIsItsNumber(p: Pools, i: nat)
    requires Filled(p)
    ensures Slot(p, i).scope in ALL_SCOPES
    ensures Some(Slot(p, i).docId) == MakeDocumentId(Slot(p, i).scope, i + 1)
    ensures Slot(p, i).scope != "" && Slot(p, i).docId != "" && Slot(p, i).conversation.None?
  {
    hide Padded;
    var d := Slot(p, i);
    DeclaredIsNotEmpty(d.scope);
    assert d.docId[|PrefixOf(d.scope).value|] == '-';
  }

  lemma SmallNumbers(n: nat)
    requires n < 10
    ensures Padded(n, 3) == "00" + [Digit(n)]
  {
    assert Decimal(n) == [Digit(n)];
    assert Zeros(2) == "00";
  }

  /** The identifiers of the six fixed documents. */
  lemma FixedIdentifiers(p: Pools, i: nat)
    requires Filled(p) && i < 6
    ensures Slot(p, i).docId == ["PAY-001", "BIL-002", "HR-003", "INF-004", "PAY-005", "PAY-006"][i]
  {
    hide MakeDocumentId, Padded, Pick;
    SmallNumbers(i + 1);
    IdsNameTheirScope(if 1 <= i <= 3 then i else 0, i + 1);
    assert ALL_SCOPES[0] == SERVED_SCOPE && forall k | 0 <= k < 3 :: ALL_SCOPES[k + 1] == OTHER_SCOPES[k];
  }

  /** For every count the identifiers are pairwise distinct, also across scopes. */
  lemma IdsAreDistinct(p: Pools, i: nat, j: nat)
    requires Filled(p) && i != j
    ensures Slot(p, i).docId != Slot(p, j).docId
  {
    hide Slot, MakeDocumentId;
    SlotIdIsItsNumber(p, i);
    SlotIdIsItsNumber(p, j);
    if Slot(p, i).docId == Slot(p, j).docId {
      DocumentIdsAreInjective(Slot(p, i).scope, i + 1, Slot(p, j).scope, j + 1);
    }
  }

  lemma ServedSlots(p: Pools, i: nat)
    requires Filled(p)
    ensures Slot(p, i).scope == SERVED_SCOPE <==> i == 0 || 4 <= i < FIXED
    ensures 1 <= i <= 3 ==> Slot(p, i).title == p.traps[i - 1].title
  {
    if 1 <= i <= 3 {
      OthersAreNotServed(i - 1);
    }
    OthersAreNotServed(i % 6);
  }

  lemma ServedSlotsAreSafe(lower: Lowering, p: Pools, i: nat)
    requires SoundPools(lower, p) && Slot(p, i).scope == SERVED_SCOPE
    ensures !NamesRefund(lower, Slot(p, i)) && HasNoMarker(Slot(p, i).body, p.markers)
  {
    hide HasNoMarker, Contains, MakeDocumentId;
    ServedSlots(p, i);
  }

  /** The generator never raises for a count of 10 or more: every list it builds passes its own
      verification. */
  lemma GeneratedDocumentsPass(lower: Lowering, p: Pools, count: nat)
    requires SoundPools(lower, p) && count >= MIN_COUNT
    ensures AllHold(lower, Slots(p, count), SERVED_SCOPE, ALL_SCOPES, p.markers)
  {
    hide Slot, HasNoMarker, NamesRefund, MakeDocumentId, CountTraps;
    var docs := Slots(p, count);
    forall i | 0 <= i < count && docs[i].scope == SERVED_SCOPE
      ensures !NamesRefund(lower, docs[i]) && HasNoMarker(docs[i].body, p.markers)
    {
      ServedSlotsAreSafe(lower, p, i);
    }
    forall i | 0 <= i < count ensures docs[i].scope in ALL_SCOPES && HasKeyOnly(docs[i]) {
      SlotIdIsItsNumber(p, i);
    }
    forall i, j | 0 <= i < j < count ensures docs[i].docId != docs[j].docId {
      IdsAreDistinct(p, i, j);
    }
    TrapsAreTraps(lower, p, 1);
    TrapsAreTraps(lower, p, 2);
    TwoTrapsCount(lower, docs, SERVED_SCOPE, 1, 2);
  }

  lemma TrapsAreTraps(lower: Lowering, p: Pools, i: nat)
    requires SoundPools(lower, p) && 1 <= i <= 3
    ensures IsTrap(lower, Slot(p, i), SERVED_SCOPE)
  {
    hide Contains;
    ServedSlots(p, i);
  }

  function CountIn(docs: seq<SeedDocument>, scope: string): nat {
    if docs == [] then 0 else CountIn(docs[..|docs| - 1], scope) + (if docs[|docs| - 1].scope == scope then 1 else 0)
  }

  lemma NothingCounts(scope: string)
    ensures CountIn([], scope) == 0
  {
  }

  lemma CountInPush(docs: seq<SeedDocument>, d: SeedDocument, scope: string)
    ensures CountIn(docs + [d], scope) == CountIn(docs, scope) + (if d.scope == scope then 1 else 0)
  {
    assert (docs + [d])[..|docs|] == docs;
  }

  lemma OtherScopesDiffer(i: nat, k: nat)
    requires i < |OTHER_SCOPES| && k < |OTHER_SCOPES| && OTHER_SCOPES[i] == OTHER_SCOPES[k]
    ensures i == k
  {
    assert |OTHER_SCOPES[i]| == [16, 7, 13, 19, 20, 15][i];
    assert |OTHER_SCOPES[k]| == [16, 7, 13, 19, 20, 15][k];
  }

  /** The noise after the six fixed slots is even: each of the other scopes gets its share of the
      rotation, so any two differ by at most one. */
  lemma {:induction false} NoiseIsEven(p: Pools, count: nat, k: nat)
    requires Filled(p) && count >= FIXED && k < 6
    ensures CountIn(Slots(p, count)[FIXED..], OTHER_SCOPES[k]) == (count - FIXED + 5 - k) / 6
    decreases count
  {
    hide *;
    Sizes();
    if count > FIXED {
      OneMoreSlot(p, count - 1);
      NoiseSlot(p, count - 1);
      CountInPush(Slots(p, count - 1)[FIXED..], Slot(p, count - 1), OTHER_SCOPES[k]);
      assert Slots(p, count)[FIXED..] == Slots(p, count - 1)[FIXED..] + [Slot(p, count - 1)];
      NoiseIsEven(p, count - 1, k);
      if OTHER_SCOPES[(count - 1 - FIXED) % 6] == OTHER_SCOPES[k] {
        OtherScopesDiffer((count - 1 - FIXED) % 6, k);
      }
    } else {
      assert Slots(p, count)[FIXED..] == [];
      NothingCounts(OTHER_SCOPES[k]);
    }
  }

  /** Two shares of the same rotation differ by at most one. */
  lemma SharesDifferByOne(p: Pools, count: nat, k: nat, l: nat)
    requires Filled(p) && count >= FIXED && k < 6 && l < 6
    ensures CountIn(Slots(p, count)[FIXED..], OTHER_SCOPES[k]) <= CountIn(Slots(p, count)[FIXED..], OTHER_SCOPES[l]) + 1
  {
    NoiseIsEven(p, count, k);
    NoiseIsEven(p, count, l);
  }
}
