/** The entry point around the scrubber: which body goes out for which event and which fault. */
module ResponseHandler {
  import opened Text
  import opened Wrappers
  import opened Json
  import opened Envelope
  import opened ScrubWalk
  import Guarantees = ScrubGuarantees
  import Names = KeyNames
  import Shapes = CredentialShapes

  const DEFAULT_STATUS := Int(200)
  const MAX_WITHHELD_BATCH_ITEMS := 64
  const MAX_ECHOED_ID_CHARS := 128
  const WITHHELD_ERROR_CODE := -32603
  const WITHHELD_ERROR_MESSAGE := "internal error: the response could not be processed"

  function McpOf(event: Json): Option<Json> {
    Section(event, "mcp")
  }

  function SectionOf(o: Option<Json>, key: string): Option<Json> {
    if o.Some? then Section(o.value, key) else None
  }

  function FieldOf(o: Option<Json>, key: string, default: Json): Option<Json> {
    if o.Some? then Field(o.value, key, default) else None
  }

  /** The reply body, when the envelope can be read. */
  function BodyOf(event: Json): Option<Json> {
    FieldOf(SectionOf(McpOf(event), "gatewayResponse"), "body", Obj([]))
  }

  function StatusOf(event: Json): Option<Json> {
    FieldOf(SectionOf(McpOf(event), "gatewayResponse"), "statusCode", DEFAULT_STATUS)
  }

  function MethodOf(mcp: Json): Option<Json> {
    FieldOf(SectionOf(Section(mcp, "gatewayRequest"), "body"), "method", Null)
  }

  /** The calls that may fail for reasons of their own, each as the environment decides. */
  datatype Faults = Faults(gate: bool, scrub: bool, respond: bool, shapeCheck: nat -> bool)

  predicate ShouldSkipScan(mcp: Json, faults: Faults) {
    !faults.gate && MethodOf(mcp).Some? && MethodOf(mcp).value.Str? && MethodOf(mcp).value.s != TOOLS_CALL
  }

  datatype Response = Response(status: Json, body: Json)

  // ----- the withheld body ----------------------------------------------------------------

  predicate IsIdChar(c: char) {
    IsLower(c) || IsUpper(c) || IsDigit(c) || c == '.' || c == '_' || c == ':' || c == '-'
  }

  /** The id pattern. Its `$` also matches before one newline at the very end. */
  predicate MatchesSafeId(s: string) {
    var core := if s != "" && s[|s| - 1] == '\n' then s[..|s| - 1] else s;
    core != "" && forall i | 0 <= i < |core| :: IsIdChar(core[i])
  }

  function EchoedId(entry: Json, shapeCheckRaises: bool): Json {
    if !entry.Obj? then Null
    else
      var candidate := Get(entry.entries, "id", Null);
      if candidate.Int? then candidate
      else if candidate.Str? && |candidate.s| <= MAX_ECHOED_ID_CHARS && MatchesSafeId(candidate.s)
              && !shapeCheckRaises && !Shapes.HasCredentialShape(candidate.s) then candidate
      else Null
  }

  function ErrorWith(id: Json): Json {
    Obj([
      Entry("jsonrpc", Str("2.0")),
      Entry("id", id),
      Entry("error", Obj([Entry("code", Int(WITHHELD_ERROR_CODE)), Entry("message", Str(WITHHELD_ERROR_MESSAGE))]))
    ])
  }

  /** What of the withheld body is answered: the first 64 entries of a batch, or one blank one. */
  function Answered(body: Json): seq<Json> {
    if !body.Arr? then [body]
    else if body.items == [] then [Null]
    else if |body.items| > MAX_WITHHELD_BATCH_ITEMS then body.items[..MAX_WITHHELD_BATCH_ITEMS]
    else body.items
  }

  function WithheldBody(body: Json, faults: Faults): Json {
    var errors := seq(|Answered(body)|, i requires 0 <= i < |Answered(body)| =>
                    ErrorWith(EchoedId(Answered(body)[i], faults.shapeCheck(i))));
    if body.Arr? then Arr(errors) else errors[0]
  }

  // ----- the handler ----------------------------------------------------------------------

  /** The locals of the handler that its `except` branch reads. */
  class Attempt {
    var statusCode: Json
    var originalBody: Json
    var scrubStarted: bool
    var vouchedBody: Option<Json>

    constructor ()
      ensures statusCode == DEFAULT_STATUS && originalBody == Obj([]) && !scrubStarted && vouchedBody == None
    {
      statusCode, originalBody, scrubStarted, vouchedBody := DEFAULT_STATUS, Obj([]), false, None;
    }

    /** The `try` branch: a response, or the exception that ended it. */
    method Run(p: Platform, event: Json, faults: Faults) returns (r: Option<Response>)
      requires statusCode == DEFAULT_STATUS && originalBody == Obj([]) && !scrubStarted && vouchedBody == None
      modifies this
      ensures BodyOf(event).None? ==>
        r.None? && statusCode == DEFAULT_STATUS && originalBody == Obj([]) && !scrubStarted && vouchedBody == None
      ensures BodyOf(event).Some? ==> StatusOf(event).Some? && McpOf(event).Some? && statusCode == StatusOf(event).value
      ensures BodyOf(event).Some? ==>
        var skip := ShouldSkipScan(McpOf(event).value, faults);
        var scrubbed := Scrub(p, BodyOf(event).value);
        var done := !faults.scrub && scrubbed.Done?;
        && vouchedBody == (if skip then Some(BodyOf(event).value) else if done then Some(scrubbed.value) else None)
        && scrubStarted == !skip
        && (scrubStarted ==> originalBody == BodyOf(event).value)
        && r == (if vouchedBody.Some? && !faults.respond then Some(Response(statusCode, vouchedBody.value)) else None)
    {
      hide Scrub, ShouldSkipScan, Get, OrEmpty;
      var mcp := Section(event, "mcp");
      if mcp.None? {
        return None;
      }
      var gatewayResponse := Section(mcp.value, "gatewayResponse");
      if gatewayResponse.None? {
        return None;
      }
      var body := Field(gatewayResponse.value, "body", Obj([]));
      if body.None? {
        return None;
      }
      statusCode := Get(gatewayResponse.value.entries, "statusCode", DEFAULT_STATUS);
      if ShouldSkipScan(mcp.value, faults) {
        vouchedBody := Some(body.value);
        if faults.respond {
          return None;
        }
        return Some(Response(statusCode, body.value));
      }
      originalBody := body.value;
      scrubStarted := true;
      var scrubbed := Scrub(p, originalBody);
      if faults.scrub || scrubbed.DepthExceeded? {
        return None;
      }
      vouchedBody := Some(scrubbed.value);
      if faults.respond {
        return None;
      }
      return Some(Response(statusCode, scrubbed.value));
    }
  }

  /** The handler never raises: whatever ends the `try` branch, some body goes out. */
  method Handle(p: Platform, event: Json, faults: Faults) returns (r: Response)
    ensures r == Handled(p, event, faults)
  {
    var attempt := new Attempt();
    var tried := attempt.Run(p, event, faults);
    if tried.Some? {
      return tried.value;
    }
    if attempt.vouchedBody.Some? {
      return Response(attempt.statusCode, attempt.vouchedBody.value);
    }
    if attempt.scrubStarted {
      return Response(attempt.statusCode, WithheldBody(attempt.originalBody, faults));
    }
    return Response(attempt.statusCode, attempt.originalBody);
  }

  /** What the gateway gets: an unreadable envelope gives the empty default, a request that is not
      a tool call passes through, anything else is scrubbed or withheld. */
  function Handled(p: Platform, event: Json, faults: Faults): Response {
    if BodyOf(event).None? then Response(DEFAULT_STATUS, Obj([]))
    else
      var body, status := BodyOf(event).value, StatusOf(event).value;
      if ShouldSkipScan(McpOf(event).value, faults) then Response(status, body)
      else if !faults.scrub && Scrub(p, body).Done? then Response(status, Scrub(p, body).value)
      else Response(status, WithheldBody(body, faults))
  }

  // ----- told of the event alone ----------------------------------------------------------

  const METHOD := ["mcp", "gatewayRequest", "body", "method"]
  const REPLY := ["mcp", "gatewayResponse"]

  /** The request of the reply names a method other than a tool call. */
  ghost predicate NamesOtherMethod(event: Json) {
    exists m: string :: m != "tools/call" && LeadsTo(event, METHOD, Str(m))
  }

  lemma SectionOfStep(o: Option<Json>, key: string, rest: seq<string>, leaf: Json)
    requires rest != []
    ensures o.Some? && LeadsTo(o.value, [key] + rest, leaf) <==>
      SectionOf(o, key).Some? && LeadsTo(SectionOf(o, key).value, rest, leaf)
  {
    hide LeadsTo, Section;
    if o.Some? {
      SectionIsAStep(o.value, key, rest, leaf);
    }
  }

  lemma FieldOfStep(o: Option<Json>, key: string, leaf: Json, default: Json)
    ensures o.Some? && LeadsTo(o.value, [key], leaf) ==> FieldOf(o, key, default) == Some(leaf)
    ensures FieldOf(o, key, default) == Some(leaf) && leaf != default ==> o.Some? && LeadsTo(o.value, [key], leaf)
  {
    hide LeadsTo, Field;
    if o.Some? {
      FieldIsTheLastStep(o.value, key, leaf, default);
    }
  }

  lemma MethodIsOnThePath(event: Json, m: string)
    ensures LeadsTo(event, METHOD, Str(m)) <==> McpOf(event).Some? && MethodOf(McpOf(event).value) == Some(Str(m))
  {
    hide LeadsTo, Section, FieldOf;
    var inBody, inRequest := ["body"] + ["method"], ["gatewayRequest"] + (["body"] + ["method"]);
    assert METHOD == ["mcp"] + inRequest;
    SectionOfStep(Some(event), "mcp", inRequest, Str(m));
    var mcp := McpOf(event);
    SectionOfStep(mcp, "gatewayRequest", inBody, Str(m));
    var request := SectionOf(mcp, "gatewayRequest");
    SectionOfStep(request, "body", ["method"], Str(m));
    FieldOfStep(SectionOf(request, "body"), "method", Str(m), Null);
    if mcp.None? {
      assert SectionOf(mcp, "gatewayRequest") == None;
    }
  }

  lemma GateIff(event: Json, faults: Faults)
    requires McpOf(event).Some?
    ensures ShouldSkipScan(McpOf(event).value, faults) <==> !faults.gate && NamesOtherMethod(event)
  {
    hide LeadsTo, MethodOf, Section;
    forall m: string ensures LeadsTo(event, METHOD, Str(m)) <==> MethodOf(McpOf(event).value) == Some(Str(m)) {
      MethodIsOnThePath(event, m);
    }
    var named := MethodOf(McpOf(event).value);
    if named.Some? && named.value.Str? && named.value.s != TOOLS_CALL {
      assert LeadsTo(event, METHOD, Str(named.value.s));
    }
  }

  /** Body and status are those on their paths, by default an empty dict and 200, unless the
      envelope is not made of dicts. */
  lemma ReplyIsOnThePath(event: Json, leaf: Json)
    ensures BodyOf(event).None? <==> Breaks(event, REPLY)
    ensures StatusOf(event).None? <==> Breaks(event, REPLY)
    ensures LeadsTo(event, REPLY + ["body"], leaf) ==> BodyOf(event) == Some(leaf)
    ensures LeadsTo(event, REPLY + ["statusCode"], leaf) ==> StatusOf(event) == Some(leaf)
    ensures BodyOf(event) == Some(leaf) && leaf != Obj([]) ==> LeadsTo(event, REPLY + ["body"], leaf)
    ensures StatusOf(event) == Some(leaf) && leaf != Int(200) ==> LeadsTo(event, REPLY + ["statusCode"], leaf)
  {
    ReplyBreaks(event);
    ReplyField(event, "body", leaf, Obj([]));
    ReplyField(event, "statusCode", leaf, DEFAULT_STATUS);
  }

  lemma ReplyField(event: Json, key: string, leaf: Json, default: Json)
    ensures var value := FieldOf(SectionOf(McpOf(event), "gatewayResponse"), key, default);
      && (LeadsTo(event, REPLY + [key], leaf) ==> value == Some(leaf))
      && (value == Some(leaf) && leaf != default ==> LeadsTo(event, REPLY + [key], leaf))
  {
    hide LeadsTo, Section, FieldOf;
    assert REPLY + [key] == ["mcp"] + (["gatewayResponse"] + [key]);
    SectionOfStep(Some(event), "mcp", ["gatewayResponse"] + [key], leaf);
    SectionOfStep(McpOf(event), "gatewayResponse", [key], leaf);
    FieldOfStep(SectionOf(McpOf(event), "gatewayResponse"), key, leaf, default);
  }

  lemma ReplyBreaks(event: Json)
    ensures BodyOf(event).None? <==> Breaks(event, REPLY)
    ensures StatusOf(event).None? <==> Breaks(event, REPLY)
  {
    assert REPLY == ["mcp"] + (["gatewayResponse"] + []);
    SectionBreaks(event, "mcp", ["gatewayResponse"] + []);
    if McpOf(event).Some? {
      SectionBreaks(McpOf(event).value, "gatewayResponse", []);
    }
  }

  /** What goes out for every event and every fault: the empty default for an envelope that cannot be
      read; the reply as it came when the gate could read that the request was no tool call; and
      else what a completed scrub left or, when none completed, the withheld body. */
  lemma RepliesAreScrubbedUnlessCleared(p: Platform, event: Json, faults: Faults)
    ensures var out := Handled(p, event, faults);
      if Breaks(event, REPLY) then out == Response(Int(200), Obj([]))
      else
        && BodyOf(event).Some? && StatusOf(event).Some? && out.status == StatusOf(event).value
        && out.body ==
           if !faults.gate && NamesOtherMethod(event) then BodyOf(event).value
           else if !faults.scrub && Scrub(p, BodyOf(event).value).Done? then Scrub(p, BodyOf(event).value).value
           else WithheldBody(BodyOf(event).value, faults)
  {
    hide Scrub, ShouldSkipScan, NamesOtherMethod, WithheldBody, Breaks;
    ReplyBreaks(event);
    if BodyOf(event).Some? {
      GateIff(event, faults);
    }
  }

  lemma OneLeafPerPath(v: Json, path: seq<string>, a: Json, b: Json)
    requires LeadsTo(v, path, a) && LeadsTo(v, path, b)
    ensures a == b
    decreases |path|
  {
    if path != [] {
      OneLeafPerPath(Get(v.entries, path[0], Null), path[1..], a, b);
    }
  }

  /** The reply to a tool call, to a request whose method is missing, unreadable or no text, and any
      reply when the gate faults, never goes out as it came by way of the gate: it is the empty
      default, the result of a scrub that completed, in which no dict key is a credential name, or a
      withheld body. */
  lemma OnlyVouchedBodiesGoOut(p: Platform, event: Json, faults: Faults)
    requires p.Lawful() && (BodyOf(event).Some? ==> WellFormed(BodyOf(event).value))
    requires || faults.gate || LeadsTo(event, METHOD, Str("tools/call"))
             || forall m: string :: !LeadsTo(event, METHOD, Str(m))
    ensures var out := Handled(p, event, faults).body;
      || (out == Obj([]) && BodyOf(event).None?)
      || (BodyOf(event).Some? && !faults.scrub && Scrub(p, BodyOf(event).value).Done?
          && out == Scrub(p, BodyOf(event).value).value
          && Guarantees.NoCredentialKeys(p, out) && (Names.KnowsAscii(p) ==> Names.NoNameSpelled(out)))
      || (BodyOf(event).Some? && (faults.scrub || Scrub(p, BodyOf(event).value).DepthExceeded?)
          && out == WithheldBody(BodyOf(event).value, faults))
  {
    hide Scrub, WithheldBody, Handled, LeadsTo, BodyOf, Breaks, Guarantees.NoCredentialKeys, Names.NoNameSpelled;
    RepliesAreScrubbedUnlessCleared(p, event, faults);
    ReplyBreaks(event);
    forall m: string | LeadsTo(event, METHOD, Str(m)) && LeadsTo(event, METHOD, Str("tools/call"))
      ensures m == "tools/call"
    {
      OneLeafPerPath(event, METHOD, Str(m), Str("tools/call"));
    }
    if BodyOf(event).Some? && Scrub(p, BodyOf(event).value).Done? {
      Guarantees.NoCredentialKeySurvives(p, BodyOf(event).value);
      if Names.KnowsAscii(p) {
        Names.NoCredentialNameSurvives(p, BodyOf(event).value);
      }
    }
  }

  /** The handshake is left alone: the reply to any other method goes out as it came, with its status,
      whatever it holds, unless the gate itself fails. */
  lemma OtherRepliesPassThrough(p: Platform, event: Json, faults: Faults, m: string, body: Json)
    requires !faults.gate && m != "tools/call" && LeadsTo(event, METHOD, Str(m))
    requires LeadsTo(event, REPLY + ["body"], body)
    ensures Handled(p, event, faults).body == body
    ensures forall code :: LeadsTo(event, REPLY + ["statusCode"], code) ==> Handled(p, event, faults).status == code
  {
    hide Scrub, WithheldBody, Handled, LeadsTo, BodyOf, StatusOf, Breaks;
    RepliesAreScrubbedUnlessCleared(p, event, faults);
    ReplyIsOnThePath(event, body);
    forall code | LeadsTo(event, REPLY + ["statusCode"], code) ensures Handled(p, event, faults).status == code {
      ReplyIsOnThePath(event, code);
    }
  }

  /** A reply body without anything to remove reaches the gateway as it was, in whatever fault-free
      way it goes through; a body that cannot be scrubbed never does, unless the gate cleared it. */
  lemma CleanBodiesRoundTrip(p: Platform, event: Json, faults: Faults)
    requires p.Lawful() && BodyOf(event).Some? && WellFormed(BodyOf(event).value) && !faults.scrub
    requires Scrub(p, BodyOf(event).value).Done?
    ensures StatusOf(event).Some?
    ensures Handled(p, event, faults) == Response(StatusOf(event).value, BodyOf(event).value) <==>
      (!faults.gate && NamesOtherMethod(event)) || Scrub(p, BodyOf(event).value).removed == 0
  {
    hide Scrub, WithheldBody, Handled, BodyOf, StatusOf, Breaks, NamesOtherMethod;
    RepliesAreScrubbedUnlessCleared(p, event, faults);
    ReplyBreaks(event);
    Guarantees.CountIsZeroIffUnchanged(p, BodyOf(event).value);
  }

  // ----- what a withheld body carries -----------------------------------------------------

  /** An id that may be echoed. */
  predicate SafeId(id: Json) {
    match id
    case Null => true
    case Int(n) => true
    case Str(s) =>
      && |s| <= MAX_ECHOED_ID_CHARS
      && (forall i | 0 <= i < |s| :: IsIdChar(s[i]) || (i == |s| - 1 && s[i] == '\n'))
      && !Shapes.HasCredentialShape(s)
    case _ => false
  }

  /** The id of an entry, when it may be echoed: a number, or a short text of id characters, with at
      most one newline behind them, in which no credential shape occurs and whose check did not
      fail. Otherwise null. */
  ghost predicate IsIdFor(id: Json, entry: Json, checkFails: bool) {
    var own := if entry.Obj? then Get(entry.entries, "id", Null) else Null;
    if own.Int? || (own.Str? && Echoable(own.s) && !checkFails) then id == own else id == Null
  }

  ghost predicate Echoable(s: string) {
    && s != "" && s != "\n" && |s| <= 128
    && (forall i | 0 <= i < |s| :: IsIdChar(s[i]) || (i == |s| - 1 && s[i] == '\n'))
    && Shapes.Free(Shapes.SigV4Param, s) && Shapes.Free(Shapes.SessionToken, s)
    && Shapes.Free(Shapes.SecretKey, s) && Shapes.Free(Shapes.AccessKeyId, s)
  }

  /** A JSON-RPC error with the id of the entry it answers. */
  ghost predicate AnswersEntry(e: Json, entry: Json, checkFails: bool) {
    && e.Obj? && Get(e.entries, "jsonrpc", Null) == Str("2.0")
    && IsIdFor(Get(e.entries, "id", Null), entry, checkFails)
    && (var error := Get(e.entries, "error", Null);
        && error.Obj? && Get(error.entries, "code", Null) == Int(-32603)
        && Get(error.entries, "message", Null) == Str(WITHHELD_ERROR_MESSAGE) && |error.entries| == 2)
    && |e.entries| == 3
  }

  lemma ErrorFields(id: Json)
    ensures var e := ErrorWith(id);
      && Get(e.entries, "jsonrpc", Null) == Str("2.0") && Get(e.entries, "id", Null) == id && |e.entries| == 3
      && (var error := Get(e.entries, "error", Null);
          && error.Obj? && Get(error.entries, "code", Null) == Int(-32603)
          && Get(error.entries, "message", Null) == Str(WITHHELD_ERROR_MESSAGE) && |error.entries| == 2)
  {
    hide WITHHELD_ERROR_MESSAGE;
    var error := Obj([Entry("code", Int(-32603)), Entry("message", Str(WITHHELD_ERROR_MESSAGE))]);
    var es := ErrorWith(id).entries;
    assert error.entries[1..] == [Entry("message", Str(WITHHELD_ERROR_MESSAGE))];
    assert es[1..] == [Entry("id", id), Entry("error", error)] && es[1..][1..] == [Entry("error", error)];
    assert Get(es[1..], "error", Null) == Get(es[1..][1..], "error", Null);
  }

  lemma SafeIdIff(s: string)
    ensures MatchesSafeId(s) <==>
      && s != "" && s != "\n"
      && forall i | 0 <= i < |s| :: IsIdChar(s[i]) || (i == |s| - 1 && s[i] == '\n')
  {
    if s != "" && s[|s| - 1] == '\n' {
      var core := s[..|s| - 1];
      assert s == core + ['\n'];
      assert core == "" <==> s == "\n";
      if forall i | 0 <= i < |s| :: IsIdChar(s[i]) || (i == |s| - 1 && s[i] == '\n') {
        assert forall i | 0 <= i < |core| :: core[i] == s[i] && IsIdChar(s[i]);
      }
    }
    if MatchesSafeId(s) {
      SafeIdCharacters(s);
    }
  }

  lemma EchoableIff(s: string)
    ensures |s| <= MAX_ECHOED_ID_CHARS && MatchesSafeId(s) && !Shapes.HasCredentialShape(s) <==> Echoable(s)
  {
    hide Shapes.HasCredentialShape, Shapes.Free, MatchesSafeId;
    Shapes.ShapeReportedIffPresent(s);
    SafeIdIff(s);
  }

  /** An entry's own id is echoed exactly when it may be. */
  lemma EchoedIdIff(entry: Json, checkFails: bool)
    ensures IsIdFor(EchoedId(entry, checkFails), entry, checkFails)
  {
    hide Shapes.HasCredentialShape, Echoable, MatchesSafeId, Get;
    if entry.Obj? && Get(entry.entries, "id", Null).Str? {
      EchoableIff(Get(entry.entries, "id", Null).s);
    }
  }

  lemma ErrorAnswers(entry: Json, checkFails: bool)
    ensures AnswersEntry(ErrorWith(EchoedId(entry, checkFails)), entry, checkFails)
  {
    hide EchoedId, IsIdFor, Get, ErrorWith;
    EchoedIdIff(entry, checkFails);
    ErrorFields(EchoedId(entry, checkFails));
    ErrorIsADict(EchoedId(entry, checkFails));
  }

  lemma ErrorIsADict(id: Json)
    ensures ErrorWith(id).Obj?
  {
  }

  /** A batch of `n` entries is answered with min(64, max(1, n)) errors, the i-th for the i-th entry;
      anything else is answered with one. An error carries its entry's own safe id or null, and
      nothing else of the body. */
  lemma WithheldShape(body: Json, faults: Faults)
    ensures var w := WithheldBody(body, faults);
      if body.Arr? then
        && w.Arr? && |w.items| == Min(64, Max(1, |body.items|))
        && forall i: nat | i < |w.items| ::
             AnswersEntry(w.items[i], if i < |body.items| then body.items[i] else Null, faults.shapeCheck(i))
      else AnswersEntry(w, body, faults.shapeCheck(0))
  {
    hide AnswersEntry, ErrorWith, EchoedId;
    forall i: nat | i < |Answered(body)|
      ensures AnswersEntry(ErrorWith(EchoedId(Answered(body)[i], faults.shapeCheck(i))), Answered(body)[i],
          faults.shapeCheck(i))
    {
      ErrorAnswers(Answered(body)[i], faults.shapeCheck(i));
    }
  }

  lemma EchoedIdIsSafe(entry: Json, raises: bool)
    ensures SafeId(EchoedId(entry, raises))
  {
    hide Shapes.HasCredentialShape;
    var id := EchoedId(entry, raises);
    if id.Str? {
      SafeIdCharacters(id.s);
    }
  }

  lemma SafeIdCharacters(s: string)
    requires MatchesSafeId(s)
    ensures forall i | 0 <= i < |s| :: IsIdChar(s[i]) || (i == |s| - 1 && s[i] == '\n')
  {
    if s[|s| - 1] == '\n' {
      assert forall i | 0 <= i < |s| - 1 :: IsIdChar(s[..|s| - 1][i]) && s[..|s| - 1][i] == s[i];
    }
  }

  /** The pattern confines an id to its own characters exactly when the id does not end in a newline,
      which its `$` lets through: "1\n" is a safe id. */
  lemma SafeIdMayEndInNewline(s: string)
    requires MatchesSafeId(s)
    ensures (forall i | 0 <= i < |s| :: IsIdChar(s[i])) <==> s[|s| - 1] != '\n'
    ensures MatchesSafeId("1\n")
  {
    SafeIdCharacters(s);
    var id := "1\n";
    assert id[..|id| - 1] == "1" && forall i | 0 <= i < |"1"| :: IsIdChar("1"[i]);
  }
}
