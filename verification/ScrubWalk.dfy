/** The structural scrub as a function of the body: rules 1 to 3 and the shared depth budget. */
module ScrubWalk {
  import opened Text
  import opened Json
  import Shapes = CredentialShapes

  /** What `json.loads` answers for one text. */
  datatype Loaded = Loaded(v: Json) | NotJson | DecoderOverflow

  /** The library calls the scrubber makes. */
  datatype Platform = Platform(
    loads: string -> Loaded,
    dumps: Json -> string,
    nfkc: string -> string,
    casefold: string -> string)
  {
    /** A parsed object has each key once. */
    ghost predicate ParsesWellFormed() {
      forall s: string | loads(s).Loaded? :: WellFormed(loads(s).v)
    }

    /** Serialising a well-formed container that is no deeper than the limit, and parsing it back,
        gives the same container. */
    ghost predicate RoundTrips() {
      && (forall v: Json | v.IsContainer() && WellFormed(v) && ContainerDepth(v) <= MAX_BODY_DEPTH ::
            loads(dumps(v)) == Loaded(v))
      && ParsesWellFormed()
    }

    /** Blank text is not JSON. */
    ghost predicate BlankIsNotJson() {
      forall s: string | Blank(s) :: loads(s) == NotJson
    }

    ghost predicate Lawful() {
      RoundTrips() && BlankIsNotJson()
    }
  }

  const MAX_BODY_DEPTH := 100
  const MAX_EMBEDDED_JSON_CHARS := 1048576

  const CREDENTIAL_KEY_SPELLINGS := [
    "bedrockAgentCorePropagatedHeaders",
    "x-tvm-access-key-id", "x-tvm-secret-access-key", "x-tvm-session-token",
    "context", "credentials",
    "access_key_id", "secret_access_key", "session_token",
    "aws_access_key_id", "aws_secret_access_key", "aws_session_token",
    "security_token", "aws_security_token",
    "x-amz-credential", "x-amz-signature", "x-amz-security-token"
  ]

  predicate IsKeyNoise(c: char) {
    IsSpace(c) || c == '_' || c == '-' || c == '.' || '\U{200B}' <= c <= '\U{200D}' || c == '\U{FEFF}'
  }

  function WithoutNoise(s: string): string {
    if s == "" then ""
    else if IsKeyNoise(s[0]) then WithoutNoise(s[1..])
    else [s[0]] + WithoutNoise(s[1..])
  }

  function NormaliseKey(p: Platform, key: string): string {
    p.casefold(WithoutNoise(p.nfkc(key)))
  }

  predicate IsCredentialKey(p: Platform, key: string) {
    exists k | 0 <= k < |CREDENTIAL_KEY_SPELLINGS| ::
      NormaliseKey(p, CREDENTIAL_KEY_SPELLINGS[k]) == NormaliseKey(p, key)
  }

  /** Whether and how a text is taken as an embedded container (rule 3). */
  function Embedded(p: Platform, text: string): (r: Loaded)
    ensures r.Loaded? ==> r.v.IsContainer() && p.loads(text) == r
    ensures r.Loaded? ==> |text| <= MAX_EMBEDDED_JSON_CHARS && Strip(text) != "" && Strip(text)[0] in "{["
  {
    var stripped := Strip(text);
    if stripped == "" || (stripped[0] != '{' && stripped[0] != '[') || |text| > MAX_EMBEDDED_JSON_CHARS then NotJson
    else
      match p.loads(text)
      case Loaded(v) => if v.IsContainer() then Loaded(v) else NotJson
      case other => other
  }

  /** A finished scrub with its removal count, or `DepthLimitExceeded`. */
  datatype Outcome<T> = Done(value: T, removed: nat) | DepthExceeded

  datatype Slot = Kept(v: Json) | Dropped

  function Remaining(depth: nat): nat {
    if depth < MAX_BODY_DEPTH then MAX_BODY_DEPTH - depth else 0
  }

  /** One string found at container depth `depth`: rule 3 when it embeds a container, else rule 2. */
  function ScrubString(p: Platform, text: string, depth: nat): Outcome<string>
    requires depth < MAX_BODY_DEPTH
    decreases Remaining(depth), 0, 0
  {
    match Embedded(p, text)
    case NotJson => var r := Shapes.ScrubbedText(text); Done(r.0, r.1)
    case DecoderOverflow => DepthExceeded
    case Loaded(v) =>
      match ScrubContainer(p, v, depth + 1)
      case DepthExceeded => DepthExceeded
      case Done(w, n) => Done(if n == 0 then text else p.dumps(w), n)
  }

  /** One dict value or list element of a container at `depth`. */
  function ScrubChild(p: Platform, v: Json, depth: nat): Outcome<Slot>
    requires depth < MAX_BODY_DEPTH
    decreases Remaining(depth), 1, 0
  {
    if v.Str? then
      match ScrubString(p, v.s, depth)
      case DepthExceeded => DepthExceeded
      case Done(t, n) => Done(if n > 0 && Strip(t) == "" then Dropped else Kept(if n > 0 then Str(t) else v), n)
    else if v.IsContainer() then
      match ScrubContainer(p, v, depth + 1)
      case DepthExceeded => DepthExceeded
      case Done(w, n) => Done(Kept(w), n)
    else Done(Kept(v), 0)
  }

  function ScrubItems(p: Platform, items: seq<Json>, depth: nat): Outcome<seq<Json>>
    requires depth < MAX_BODY_DEPTH
    decreases Remaining(depth), 2, |items|
  {
    if items == [] then Done([], 0)
    else
      match ScrubChild(p, items[0], depth)
      case DepthExceeded => DepthExceeded
      case Done(slot, n) =>
        match ScrubItems(p, items[1..], depth)
        case DepthExceeded => DepthExceeded
        case Done(rest, m) => Done(if slot.Kept? then [slot.v] + rest else rest, n + m)
  }

  function ScrubEntries(p: Platform, entries: seq<Entry>, depth: nat): Outcome<seq<Entry>>
    requires depth < MAX_BODY_DEPTH
    decreases Remaining(depth), 2, |entries|
  {
    if entries == [] then Done([], 0)
    else
      var here := ScrubEntry(p, entries[0], depth);
      match here
      case DepthExceeded => DepthExceeded
      case Done(slot, n) =>
        match ScrubEntries(p, entries[1..], depth)
        case DepthExceeded => DepthExceeded
        case Done(rest, m) => Done(if slot.Kept? then [Entry(entries[0].key, slot.v)] + rest else rest, n + m)
  }

  /** Rule 1 first: a credential key goes with its whole subtree as one removal. */
  function ScrubEntry(p: Platform, e: Entry, depth: nat): Outcome<Slot>
    requires depth < MAX_BODY_DEPTH
    decreases Remaining(depth), 1, 1
  {
    if IsCredentialKey(p, e.key) then Done(Dropped, 1) else ScrubChild(p, e.val, depth)
  }

  function ScrubContainer(p: Platform, v: Json, depth: nat): Outcome<Json>
    requires v.IsContainer()
    decreases Remaining(depth), 3, 0
  {
    if depth >= MAX_BODY_DEPTH then DepthExceeded
    else if v.Arr? then
      match ScrubItems(p, v.items, depth)
      case DepthExceeded => DepthExceeded
      case Done(items, n) => Done(Arr(items), n)
    else
      match ScrubEntries(p, v.entries, depth)
      case DepthExceeded => DepthExceeded
      case Done(entries, n) => Done(Obj(entries), n)
  }

  /** The public entry point. A bare string is scrubbed as if one container enclosed it. */
  function Scrub(p: Platform, v: Json): Outcome<Json> {
    if ContainerDepth(v) > MAX_BODY_DEPTH then DepthExceeded
    else if v.IsContainer() then ScrubContainer(p, v, 0)
    else if v.Str? then
      match ScrubString(p, v.s, 0)
      case DepthExceeded => DepthExceeded
      case Done(t, n) => Done(Str(t), n)
    else Done(v, 0)
  }

  // ----- exactly when the scrub completes -------------------------------------------------

  /** The children the walk goes into: all of a list, and the values of a dict under other keys
      than credential names. */
  predicate Visited(p: Platform, v: Json, i: nat)
    requires v.IsContainer() && i < |v.Children()|
  {
    v.Obj? ==> !IsCredentialKey(p, v.entries[i].key)
  }

  /** At most `budget` containers nest in `v`, looking through embedded strings and past nothing
      that hangs under a credential key. */
  predicate WithinBudget(p: Platform, v: Json, budget: nat)
    decreases budget, if v.Str? then 1 else 0
  {
    if v.Str? then
      match Embedded(p, v.s)
      case NotJson => true
      case DecoderOverflow => false
      case Loaded(w) => WithinBudget(p, w, budget)
    else if v.IsContainer() then
      budget > 0 && forall i | 0 <= i < |v.Children()| :: Visited(p, v, i) ==>
          WithinBudget(p, v.Children()[i], budget - 1)
    else true
  }

  lemma {:induction false} ContainerCompletes(p: Platform, v: Json, depth: nat)
    requires v.IsContainer() && depth <= MAX_BODY_DEPTH
    ensures ScrubContainer(p, v, depth).Done? <==> WithinBudget(p, v, MAX_BODY_DEPTH - depth)
    decreases Remaining(depth), 3, 0
  {
    if depth < MAX_BODY_DEPTH {
      var budget := MAX_BODY_DEPTH - depth - 1;
      if v.Arr? {
        ItemsComplete(p, v.items, depth);
        assert forall i | 0 <= i < |v.items| :: Visited(p, v, i) && v.Children()[i] == v.items[i];
      } else {
        EntriesComplete(p, v.entries, depth);
        forall i | 0 <= i < |v.entries|
          ensures (Visited(p, v, i) ==> WithinBudget(p, v.Children()[i], budget))
             <==> (!IsCredentialKey(p, v.entries[i].key) ==> WithinBudget(p, v.entries[i].val, budget))
        {
          hide IsCredentialKey;
        }
      }
    }
  }

  lemma {:induction false} StringCompletes(p: Platform, text: string, depth: nat)
    requires depth < MAX_BODY_DEPTH
    ensures ScrubString(p, text, depth).Done? <==> WithinBudget(p, Str(text), MAX_BODY_DEPTH - depth - 1)
    decreases Remaining(depth), 0, 0
  {
    if Embedded(p, text).Loaded? {
      ContainerCompletes(p, Embedded(p, text).v, depth + 1);
    }
  }

  lemma {:induction false} ChildCompletes(p: Platform, v: Json, depth: nat)
    requires depth < MAX_BODY_DEPTH
    ensures ScrubChild(p, v, depth).Done? <==> WithinBudget(p, v, MAX_BODY_DEPTH - depth - 1)
    decreases Remaining(depth), 1, 0
  {
    if v.Str? {
      StringCompletes(p, v.s, depth);
    } else if v.IsContainer() {
      ContainerCompletes(p, v, depth + 1);
    }
  }

  lemma {:induction false} ItemsComplete(p: Platform, items: seq<Json>, depth: nat)
    requires depth < MAX_BODY_DEPTH
    ensures ScrubItems(p, items, depth).Done? <==>
            forall i | 0 <= i < |items| :: WithinBudget(p, items[i], MAX_BODY_DEPTH - depth - 1)
    decreases Remaining(depth), 2, |items|
  {
    hide WithinBudget, ScrubChild;
    if items != [] {
      ChildCompletes(p, items[0], depth);
      ItemsComplete(p, items[1..], depth);
      assert forall i | 1 <= i < |items| :: items[i] == items[1..][i - 1];
    }
  }

  lemma {:induction false} EntriesComplete(p: Platform, entries: seq<Entry>, depth: nat)
    requires depth < MAX_BODY_DEPTH
    ensures ScrubEntries(p, entries, depth).Done? <==>
            forall i | 0 <= i < |entries| ::
              !IsCredentialKey(p, entries[i].key) ==> WithinBudget(p, entries[i].val, MAX_BODY_DEPTH - depth - 1)
    decreases Remaining(depth), 2, |entries|
  {
    hide WithinBudget, IsCredentialKey, ScrubChild;
    if entries != [] {
      ChildCompletes(p, entries[0].val, depth);
      EntriesComplete(p, entries[1..], depth);
      assert forall i | 1 <= i < |entries| :: entries[i] == entries[1..][i - 1];
    }
  }

  /** The scrub completes exactly when the body nests at most 100 containers as it stands and, seen
      through its embedded strings, at most 100 again: 99 for a bare string. */
  lemma ScrubCompletes(p: Platform, v: Json)
    ensures Scrub(p, v).Done? <==>
            ContainerDepth(v) <= MAX_BODY_DEPTH
            && WithinBudget(p, v, if v.Str? then MAX_BODY_DEPTH - 1 else MAX_BODY_DEPTH)
  {
    hide ScrubContainer, ScrubString, WithinBudget, ContainerDepth;
    if v.IsContainer() {
      ContainerCompletes(p, v, 0);
    } else {
      ScalarFits(p, v);
      if v.Str? {
        StringCompletes(p, v.s, 0);
        assert v == Str(v.s);
      }
    }
  }

  lemma ScalarFits(p: Platform, v: Json)
    requires !v.IsContainer()
    ensures ContainerDepth(v) == 0 && (!v.Str? ==> WithinBudget(p, v, MAX_BODY_DEPTH))
  {
  }
}
