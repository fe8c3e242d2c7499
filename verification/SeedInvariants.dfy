/** The hard-fail check of the seed documents. */
module SeedInvariants {
  import opened Text
  import opened Wrappers

  datatype SeedDocument = SeedDocument(scope: string, docId: string, title: string, body: string,
      conversation: Option<seq<string>>)

  predicate NamesRefund(lower: Lowering, d: SeedDocument) {
    Contains(lower(d.title), "refund")
  }

  predicate IsTrap(lower: Lowering, d: SeedDocument, served: string) {
    d.scope != served && NamesRefund(lower, d)
  }

  function CountTraps(lower: Lowering, docs: seq<SeedDocument>, served: string): nat {
    if docs == [] then 0
    else CountTraps(lower, docs[..|docs| - 1], served) + (if IsTrap(lower, docs[|docs| - 1], served) then 1 else 0)
  }

  ghost predicate ServedTitlesAreSafe(lower: Lowering, docs: seq<SeedDocument>, served: string) {
    forall i | 0 <= i < |docs| && docs[i].scope == served :: !NamesRefund(lower, docs[i])
  }

  predicate HasNoMarker(body: string, markers: seq<string>) {
    forall k | 0 <= k < |markers| :: !Contains(body, markers[k])
  }

  ghost predicate ServedBodiesAreClean(docs: seq<SeedDocument>, served: string, markers: seq<string>) {
    forall i | 0 <= i < |docs| && docs[i].scope == served :: HasNoMarker(docs[i].body, markers)
  }

  ghost predicate ScopesAreDeclared(docs: seq<SeedDocument>, scopes: seq<string>) {
    forall i | 0 <= i < |docs| :: docs[i].scope in scopes
  }

  predicate HasKeyOnly(d: SeedDocument) {
    d.scope != "" && d.docId != "" && d.conversation.None?
  }

  ghost predicate KeysArePresent(docs: seq<SeedDocument>) {
    forall i | 0 <= i < |docs| :: HasKeyOnly(docs[i])
  }

  ghost predicate KeysAreUnique(docs: seq<SeedDocument>) {
    forall i, j | 0 <= i < j < |docs| :: (docs[i].scope, docs[i].docId) != (docs[j].scope, docs[j].docId)
  }

  /** The six invariants, in the order they are checked. */
  ghost predicate Holds(n: nat, lower: Lowering, docs: seq<SeedDocument>, served: string, scopes: seq<string>,
      markers: seq<string>)
  {
    match n
    case 1 => ServedTitlesAreSafe(lower, docs, served)
    case 2 => CountTraps(lower, docs, served) >= 2
    case 3 => ServedBodiesAreClean(docs, served, markers)
    case 4 => ScopesAreDeclared(docs, scopes)
    case 5 => KeysArePresent(docs)
    case 6 => KeysAreUnique(docs)
    case _ => true
  }

  ghost predicate AllHold(lower: Lowering, docs: seq<SeedDocument>, served: string, scopes: seq<string>,
      markers: seq<string>)
  {
    && ServedTitlesAreSafe(lower, docs, served) && CountTraps(lower, docs, served) >= 2
    && ServedBodiesAreClean(docs, served, markers) && ScopesAreDeclared(docs, scopes)
    && KeysArePresent(docs) && KeysAreUnique(docs)
  }

  method CountTrapTitles(lower: Lowering, docs: seq<SeedDocument>, served: string) returns (n: nat)
    ensures n == CountTraps(lower, docs, served)
  {
    n := 0;
    for i := 0 to |docs|
      invariant n == CountTraps(lower, docs[..i], served)
    {
      assert docs[..i + 1][..i] == docs[..i];
      if IsTrap(lower, docs[i], served) {
        n := n + 1;
      }
    }
    assert docs[..|docs|] == docs;
  }

  /** The last check: grows the set of keys seen so far. */
  method DuplicateKey(docs: seq<SeedDocument>) returns (duplicate: bool)
    ensures !duplicate <==> KeysAreUnique(docs)
  {
    var seen: set<(string, string)> := {};
    for i := 0 to |docs|
      invariant seen == set k | 0 <= k < i :: (docs[k].scope, docs[k].docId)
      invariant KeysAreUnique(docs[..i])
    {
      var key := (docs[i].scope, docs[i].docId);
      if key in seen {
        var k :| 0 <= k < i && (docs[k].scope, docs[k].docId) == key;
        return true;
      }
      seen := seen + {key};
    }
    assert docs[..|docs|] == docs;
    return false;
  }

  /** None when nothing is raised; otherwise the number of the invariant whose check raised. */
  method VerifySeedInvariants(lower: Lowering, docs: seq<SeedDocument>, served: string, scopes: seq<string>,
      markers: seq<string>)
    returns (violated: Option<nat>)
    ensures violated.None? <==> AllHold(lower, docs, served, scopes, markers)
    ensures violated.Some? ==> !Holds(violated.value, lower, docs, served, scopes, markers)
    ensures violated.Some? ==> forall n: nat | n < violated.value :: Holds(n, lower, docs, served, scopes, markers)
  {
    hide NamesRefund, Contains, CountTraps;
    for i := 0 to |docs|
      invariant ServedTitlesAreSafe(lower, docs[..i], served)
    {
      if docs[i].scope == served && NamesRefund(lower, docs[i]) {
        return Some(1);
      }
    }
    assert docs[..|docs|] == docs;
    var traps := CountTrapTitles(lower, docs, served);
    if traps < 2 {
      return Some(2);
    }
    for i := 0 to |docs|
      invariant ServedBodiesAreClean(docs[..i], served, markers)
    {
      if docs[i].scope == served {
        for k := 0 to |markers|
          invariant HasNoMarker(docs[i].body, markers[..k])
        {
          if Contains(docs[i].body, markers[k]) {
            return Some(3);
          }
        }
        assert markers[..|markers|] == markers;
      }
    }
    for i := 0 to |docs|
      invariant ScopesAreDeclared(docs[..i], scopes)
    {
      if docs[i].scope !in scopes {
        return Some(4);
      }
    }
    for i := 0 to |docs|
      invariant KeysArePresent(docs[..i])
    {
      if !HasKeyOnly(docs[i]) {
        return Some(5);
      }
    }
    var duplicate := DuplicateKey(docs);
    return if duplicate then Some(6) else None;
  }

  /** Any two traps are enough for the second invariant. */
  lemma {:induction false} TwoTrapsCount(lower: Lowering, docs: seq<SeedDocument>, served: string, i: nat, j: nat)
    requires i < j < |docs| && IsTrap(lower, docs[i], served) && IsTrap(lower, docs[j], served)
    ensures CountTraps(lower, docs, served) >= 2
    decreases |docs|
  {
    hide IsTrap;
    if j < |docs| - 1 {
      TwoTrapsCount(lower, docs[..|docs| - 1], served, i, j);
    } else {
      OneTrapCounts(lower, docs[..|docs| - 1], served, i);
    }
  }

  lemma {:induction false} OneTrapCounts(lower: Lowering, docs: seq<SeedDocument>, served: string, i: nat)
    requires i < |docs| && IsTrap(lower, docs[i], served)
    ensures CountTraps(lower, docs, served) >= 1
    decreases |docs|
  {
    hide IsTrap;
    if i < |docs| - 1 {
      OneTrapCounts(lower, docs[..|docs| - 1], served, i);
    }
  }
}
