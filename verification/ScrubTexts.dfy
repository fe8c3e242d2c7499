/** The guarantees for one text, lifted to all texts of a body. */
module ScrubTexts {
  import opened Text
  import opened Json
  import opened CredentialShapes
  import opened SurvivingRuns
  import opened Idempotence
  import opened ScrubWalk
  import opened ScrubGuarantees

  /** What comes back of the text `s` holds no session token. If `s` came without an access key id, it
      holds no secret-key run and no access key id either, and no SigV4 parameter unless a code point
      of `s` folds into ASCII. */
  ghost predicate LeafIsSafe(s: string, t: string) {
    && Free(SessionToken, t)
    && (Free(AccessKeyId, s) ==>
          && Free(SecretKey, t) && Free(AccessKeyId, t)
          && (Plain(s) ==> Free(SigV4Param, t)))
  }

  /** Every text of `x` in which no container was decoded comes back safe in `y`, at any depth and
      through JSON in JSON. Elements and entries are matched as in `Cleaned`. */
  ghost predicate LeavesAreSafe(p: Platform, x: Json, y: Json, budget: nat)
    decreases budget, if x.Str? then 1 else 0, 0
  {
    match x
    case Str(s) =>
      y.Str? &&
      (match Embedded(p, s)
       case NotJson => LeafIsSafe(s, y.s)
       case DecoderOverflow => false
       case Loaded(v) => p.loads(y.s).Loaded? && LeavesAreSafe(p, v, p.loads(y.s).v, budget))
    case Arr(items) => y.Arr? && budget > 0 && ItemsAreSafe(p, items, y.items, budget - 1)
    case Obj(entries) => y.Obj? && budget > 0 && EntriesAreSafe(p, entries, y.entries, budget - 1)
    case _ => true
  }

  ghost predicate ItemsAreSafe(p: Platform, xs: seq<Json>, ys: seq<Json>, budget: nat)
    decreases budget, 2, |xs|
  {
    if xs == [] then ys == []
    else if BlankedOut(p, xs[0]) then ItemsAreSafe(p, xs[1..], ys, budget)
    else ys != [] && LeavesAreSafe(p, xs[0], ys[0], budget) && ItemsAreSafe(p, xs[1..], ys[1..], budget)
  }

  ghost predicate EntriesAreSafe(p: Platform, xs: seq<Entry>, ys: seq<Entry>, budget: nat)
    decreases budget, 2, |xs|
  {
    if xs == [] then ys == []
    else if IsCredentialKey(p, xs[0].key) || BlankedOut(p, xs[0].val) then EntriesAreSafe(p, xs[1..], ys, budget)
    else
      && ys != [] && xs[0].key == ys[0].key
      && LeavesAreSafe(p, xs[0].val, ys[0].val, budget) && EntriesAreSafe(p, xs[1..], ys[1..], budget)
  }

  lemma ScrubbedTextIsSafe(s: string)
    ensures LeafIsSafe(s, ScrubbedText(s).0)
  {
    hide Free, Plain, ScrubbedText;
    NoSessionTokenSurvives(s);
    if Free(AccessKeyId, s) {
      NoShapeSurvives(s);
    }
  }

  lemma {:induction false} CleanedIsSafe(p: Platform, x: Json, y: Json, budget: nat)
    requires Cleaned(p, x, y, budget)
    ensures LeavesAreSafe(p, x, y, budget)
    decreases budget, if x.Str? then 1 else 0, 0
  {
    hide LeafIsSafe, ScrubbedText, IsCredentialKey;
    match x
    case Str(s) =>
      if Embedded(p, s).Loaded? {
        CleanedIsSafe(p, Embedded(p, s).v, p.loads(y.s).v, budget);
      } else {
        ScrubbedTextIsSafe(s);
      }
    case Arr(items) => CleanedItemsAreSafe(p, items, y.items, budget - 1);
    case Obj(entries) => CleanedEntriesAreSafe(p, entries, y.entries, budget - 1);
    case _ =>
  }

  lemma {:induction false} CleanedItemsAreSafe(p: Platform, xs: seq<Json>, ys: seq<Json>, budget: nat)
    requires ItemsCleaned(p, xs, ys, budget)
    ensures ItemsAreSafe(p, xs, ys, budget)
    decreases budget, 2, |xs|
  {
    hide Cleaned, LeavesAreSafe, BlankedOut;
    if xs != [] {
      if !BlankedOut(p, xs[0]) {
        CleanedIsSafe(p, xs[0], ys[0], budget);
        CleanedItemsAreSafe(p, xs[1..], ys[1..], budget);
      } else {
        CleanedItemsAreSafe(p, xs[1..], ys, budget);
      }
    }
  }

  lemma {:induction false} CleanedEntriesAreSafe(p: Platform, xs: seq<Entry>, ys: seq<Entry>, budget: nat)
    requires EntriesCleaned(p, xs, ys, budget)
    ensures EntriesAreSafe(p, xs, ys, budget)
    decreases budget, 2, |xs|
  {
    hide Cleaned, LeavesAreSafe, BlankedOut, IsCredentialKey;
    if xs != [] {
      if !IsCredentialKey(p, xs[0].key) && !BlankedOut(p, xs[0].val) {
        CleanedIsSafe(p, xs[0].val, ys[0].val, budget);
        CleanedEntriesAreSafe(p, xs[1..], ys[1..], budget);
      } else {
        CleanedEntriesAreSafe(p, xs[1..], ys, budget);
      }
    }
  }

  /** In a body that comes out of the scrub, every text is safe that was not taken for JSON. */
  lemma ScrubbedLeavesAreSafe(p: Platform, v: Json)
    requires p.Lawful() && WellFormed(v) && Scrub(p, v).Done?
    ensures LeavesAreSafe(p, v, Scrub(p, v).value, if v.Str? then MAX_BODY_DEPTH - 1 else MAX_BODY_DEPTH)
  {
    hide Cleaned, LeavesAreSafe, Scrub, WellFormed, Platform.Lawful;
    ScrubCleans(p, v);
    CleanedIsSafe(p, v, Scrub(p, v).value, if v.Str? then MAX_BODY_DEPTH - 1 else MAX_BODY_DEPTH);
  }
}
