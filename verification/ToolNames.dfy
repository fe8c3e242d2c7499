/** Gateway action names and the session id header. */
module ToolNames {
  import opened Text
  import opened Wrappers
  import opened Json
  import opened Vending

  const DELIMITER := "___"

  function ToolName(t: Tool): string {
    match t
    case ReadDocument => "read_document"
    case SearchDocuments => "search_documents"
    case Reply => "reply"
  }

  /** Where the last delimiter at or before `from` starts. */
  function LastDelimiter(name: string, from: int): (at: int)
    requires from < |name|
    ensures -1 <= at <= from || at == -1
    ensures at >= 0 ==> HasAt(name, at, DELIMITER)
    ensures forall k: nat | at < k <= from :: !HasAt(name, k, DELIMITER)
    decreases from + 1
  {
    if from < 0 then -1
    else if HasAt(name, from, DELIMITER) then from
    else LastDelimiter(name, from - 1)
  }

  function ToolBySuffix(suffix: string): Option<Tool> {
    if suffix == ToolName(ReadDocument) then Some(ReadDocument)
    else if suffix == ToolName(SearchDocuments) then Some(SearchDocuments)
    else if suffix == ToolName(Reply) then Some(Reply)
    else None
  }

  /** The tool named after the final delimiter; anything else is unclassifiable. */
  function ClassifyTool(action: Json): Option<Tool> {
    if !action.Str? then None
    else
      var at := LastDelimiter(action.s, |action.s| - 1);
      if at < 0 then None else ToolBySuffix(action.s[at + |DELIMITER|..])
  }

  predicate EndsWith(s: string, tail: string) {
    |tail| <= |s| && s[|s| - |tail|..] == tail
  }

  /** No delimiter lies in the tool name or overlaps its beginning. */
  predicate PlainToolName(t: string) {
    t != "" && t[0] != '_' && forall i | 0 <= i < |t| - 1 :: !(t[i] == '_' && t[i + 1] == '_')
  }

  lemma ToolNamesArePlain(t: Tool)
    ensures PlainToolName(ToolName(t)) && ToolBySuffix(ToolName(t)) == Some(t)
  {
  }

  lemma DelimiterCharacters(s: string, k: nat)
    requires HasAt(s, k, DELIMITER)
    ensures s[k] == s[k + 1] == s[k + 2] == '_'
  {
    assert s[k..k + 3][0] == '_' && s[k..k + 3][1] == '_' && s[k..k + 3][2] == '_';
  }

  lemma NoDelimiterInTail(s: string, at: nat, tail: string, k: nat)
    requires PlainToolName(tail) && at + 3 + |tail| == |s| && s[at + 3..] == tail && at < k
    ensures !HasAt(s, k, DELIMITER)
  {
    assert forall i | 0 <= i < |tail| :: tail[i] == s[at + 3 + i];
    if HasAt(s, k, DELIMITER) {
      DelimiterCharacters(s, k);
    }
  }

  lemma SuffixIsAfterLastDelimiter(s: string, tail: string)
    requires PlainToolName(tail) && EndsWith(s, DELIMITER + tail)
    ensures LastDelimiter(s, |s| - 1) == |s| - |tail| - |DELIMITER|
  {
    hide PlainToolName;
    var at := |s| - |tail| - |DELIMITER|;
    assert s[at..][..3] == DELIMITER && s[at..][3..] == tail;
    assert s[at..at + 3] == DELIMITER && s[at + 3..] == tail;
    assert HasAt(s, at, DELIMITER);
    var last := LastDelimiter(s, |s| - 1);
    if last > at {
      NoDelimiterInTail(s, at, tail, last);
    }
  }

  /** A call is classified as a tool exactly when its name ends in the delimiter and that tool's
      name: a name that merely ends in a tool name is not. */
  lemma ClassifiedIffSuffixed(action: Json, t: Tool)
    ensures ClassifyTool(action) == Some(t) <==> action.Str? && EndsWith(action.s, DELIMITER + ToolName(t))
  {
    hide LastDelimiter, ToolName;
    ToolNamesArePlain(t);
    if action.Str? {
      var s := action.s;
      var at := LastDelimiter(s, |s| - 1);
      SuffixNamesTheTool(if at >= 0 then s[at + 3..] else "", t);
      if EndsWith(s, DELIMITER + ToolName(t)) {
        SuffixIsAfterLastDelimiter(s, ToolName(t));
      }
      if at >= 0 {
        SuffixJoins(s, at, ToolName(t));
      }
    }
  }

  lemma SuffixNamesTheTool(suffix: string, t: Tool)
    ensures ToolBySuffix(suffix) == Some(t) <==> suffix == ToolName(t)
  {
  }

  lemma SuffixJoins(s: string, at: nat, tail: string)
    requires HasAt(s, at, DELIMITER)
    ensures s[at + 3..] == tail <==> EndsWith(s, DELIMITER + tail) && at == |s| - |tail| - 3
  {
    assert s[at..] == s[at..at + 3] + s[at + 3..];
    if EndsWith(s, DELIMITER + tail) && at == |s| - |tail| - 3 {
      assert s[at + 3..] == (DELIMITER + tail)[3..];
    }
  }

  /** The value of the first header with this name in any letter case. */
  function GetHeader(headers: Json, name: string): Json {
    if headers.Obj? then FirstNamed(headers.entries, Lower(name)) else Null
  }

  function FirstNamed(entries: seq<Entry>, lowerName: string): Json {
    if entries == [] then Null
    else if Lower(entries[0].key) == lowerName then entries[0].val
    else FirstNamed(entries[1..], lowerName)
  }

  /** The first non-blank `Mcp-Session-Id`, stripped. */
  function SessionId(headers: Json): Option<string> {
    if headers.Obj? then FirstSessionId(headers.entries) else None
  }

  function FirstSessionId(entries: seq<Entry>): Option<string> {
    if entries == [] then None
    else if Lower(entries[0].key) == "mcp-session-id" && entries[0].val.Str? && Strip(entries[0].val.s) != "" then
      Some(Strip(entries[0].val.s))
    else FirstSessionId(entries[1..])
  }

  lemma {:induction false} FirstNamedIsFound(entries: seq<Entry>, name: string)
    ensures var value := FirstNamed(entries, Lower(name));
      || (exists i | 0 <= i < |entries| :: FirstSpelled(entries, name, i) && value == entries[i].val)
      || (value == Null && forall i | 0 <= i < |entries| :: !SameButCase(entries[i].key, name))
    decreases |entries|
  {
    hide SameButCase, Lower;
    if entries != [] {
      SameButCaseIffSameLower(entries[0].key, name);
      if SameButCase(entries[0].key, name) {
        assert FirstSpelled(entries, name, 0);
      } else {
        var rest := entries[1..];
        FirstNamedIsFound(rest, name);
        if i :| 0 <= i < |rest| && FirstSpelled(rest, name, i) && FirstNamed(rest, Lower(name)) == rest[i].val {
          assert FirstSpelled(entries, name, i + 1);
        } else {
          assert forall i | 1 <= i < |entries| :: entries[i] == rest[i - 1];
        }
      }
    }
  }

  /** The first header whose name is `name` in some letter case. */
  predicate FirstSpelled(entries: seq<Entry>, name: string, i: nat)
    requires i < |entries|
  {
    SameButCase(entries[i].key, name) && forall j | 0 <= j < i :: !SameButCase(entries[j].key, name)
  }

  /** A header is found in whatever letter case its name was sent: the first such header is
      answered, and nothing only when there is none. */
  lemma HeadersAreFoundInAnyCase(headers: Json, name: string)
    ensures var value := GetHeader(headers, name);
      || (headers.Obj? && exists i | 0 <= i < |headers.entries| ::
            FirstSpelled(headers.entries, name, i) && value == headers.entries[i].val)
      || (value == Null
          && (headers.Obj? ==> forall i | 0 <= i < |headers.entries| :: !SameButCase(headers.entries[i].key, name)))
  {
    hide FirstNamed, Lower, SameButCase, FirstSpelled;
    if headers.Obj? {
      FirstNamedIsFound(headers.entries, name);
    }
  }

  /** A session id header with content. */
  predicate NamesASession(e: Entry) {
    SameButCase(e.key, "mcp-session-id") && e.val.Str? && !Blank(e.val.s)
  }

  predicate FirstSession(entries: seq<Entry>, i: nat)
    requires i < |entries|
  {
    NamesASession(entries[i]) && forall j | 0 <= j < i :: !NamesASession(entries[j])
  }

  lemma SessionHeaderIsLower()
    ensures Lower("mcp-session-id") == "mcp-session-id"
  {
    assert forall i | 0 <= i < |"mcp-session-id"| :: !IsUpper("mcp-session-id"[i]);
  }

  lemma NamesASessionIff(e: Entry)
    ensures NamesASession(e) <==> Lower(e.key) == "mcp-session-id" && e.val.Str? && Strip(e.val.s) != ""
  {
    hide Lower, SameButCase, Blank;
    SessionHeaderIsLower();
    SameButCaseIffSameLower(e.key, "mcp-session-id");
  }

  lemma {:induction false} FirstSessionIsFound(entries: seq<Entry>)
    ensures var id := FirstSessionId(entries);
      if id.Some? then exists i | 0 <= i < |entries| :: FirstSession(entries, i) && id.value == Strip(entries[i].val.s)
      else forall i | 0 <= i < |entries| :: !NamesASession(entries[i])
    decreases |entries|
  {
    hide SameButCase, Lower, Strip, Blank;
    if entries != [] {
      NamesASessionIff(entries[0]);
      if NamesASession(entries[0]) {
        assert FirstSession(entries, 0);
      } else {
        var rest := entries[1..];
        FirstSessionIsFound(rest);
        if FirstSessionId(entries).Some? {
          var i :| 0 <= i < |rest| && FirstSession(rest, i) && FirstSessionId(rest).value == Strip(rest[i].val.s);
          assert FirstSession(entries, i + 1);
        } else {
          assert forall i | 1 <= i < |entries| :: entries[i] == rest[i - 1];
        }
      }
    }
  }

  /** The session id is the first `Mcp-Session-Id` with content, in whatever letter case its name
      was sent, and there is none only when no such header has content. */
  lemma SessionIdIsFound(headers: Json)
    ensures var id := SessionId(headers);
      if id.Some? then
        && headers.Obj?
        && exists i | 0 <= i < |headers.entries| ::
             FirstSession(headers.entries, i) && id.value == Strip(headers.entries[i].val.s)
      else headers.Obj? ==> forall i | 0 <= i < |headers.entries| :: !NamesASession(headers.entries[i])
  {
    hide FirstSessionId, SameButCase, Blank, Strip;
    if headers.Obj? {
      FirstSessionIsFound(headers.entries);
    }
  }
}
