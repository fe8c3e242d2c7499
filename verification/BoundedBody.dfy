/** The agent's request body: read chunk by chunk under a byte limit, then parsed. */
module BoundedBody {
  import opened Text
  import opened Wrappers
  import opened Json
  import opened Numerals

  const DEFAULT_MAX_BODY_BYTES := 262144

  type Bytes = seq<bv8>

  /** The limit from the environment variable: its value when that is a positive integer, as `int` reads
      it, and the default otherwise. */
  function MaxBodyBytes(digits: DecimalDigits, raw: Option<string>): (limit: nat)
    ensures limit > 0
    ensures if raw.Some? && ParseInt(digits, raw.value).Some? && ParseInt(digits, raw.value).value > 0
            then limit == ParseInt(digits, raw.value).value
            else limit == DEFAULT_MAX_BODY_BYTES
  {
    SpaceIsIgnored(digits, raw.GetOr(""));
    var text := Strip(raw.GetOr(""));
    if text == "" then DEFAULT_MAX_BODY_BYTES
    else
      var value := ParseInt(digits, text);
      if value.None? || value.value <= 0 then DEFAULT_MAX_BODY_BYTES else value.value
  }

  function Joined(chunks: seq<Bytes>): Bytes {
    if chunks == [] then [] else Joined(chunks[..|chunks| - 1]) + chunks[|chunks| - 1]
  }

  /** Whether a body is within the limit. A body without bytes is never checked, not even against a
      negative limit. */
  predicate Fits(body: Bytes, limit: int) {
    body == [] || |body| <= limit
  }

  /** The verdict of the declared length alone: absent, empty or unreadable declarations pass. */
  predicate DeclaredTooLarge(digits: DecimalDigits, header: Option<string>, limit: int) {
    && header.Some? && header.value != ""
    && ParseInt(digits, header.value).Some? && ParseInt(digits, header.value).value > limit
  }

  lemma {:induction false} JoinedGrows(chunks: seq<Bytes>, k: nat)
    requires k <= |chunks|
    ensures Joined(chunks[..k]) <= Joined(chunks)
    decreases |chunks| - k
  {
    if k < |chunks| {
      assert chunks[..k + 1][..k] == chunks[..k];
      JoinedGrows(chunks, k + 1);
    } else {
      assert chunks[..k] == chunks;
    }
  }

  /** The body is returned exactly when all of it fits, and then it is all of it: nothing depends on
      how it was cut into chunks. Otherwise nothing is read after the first chunk that crosses the
      limit, and that chunk is not kept. */
  method ReadBoundedBody(chunks: seq<Bytes>, limit: int)
    returns (body: Option<Bytes>, ghost consumed: nat, ghost buffered: Bytes)
    ensures body == if Fits(Joined(chunks), limit) then Some(Joined(chunks)) else None
    ensures buffered <= Joined(chunks) && Fits(buffered, limit)
    ensures consumed <= |chunks| && forall k | 0 <= k < consumed :: Fits(Joined(chunks[..k]), limit)
    ensures body.None? ==> consumed > 0 && !Fits(Joined(chunks[..consumed]), limit)
    ensures body.Some? ==> consumed == |chunks|
  {
    var parts: seq<Bytes> := [];
    var total := 0;
    consumed, buffered := 0, [];
    for i := 0 to |chunks|
      invariant consumed == i
      invariant Joined(parts) == Joined(chunks[..i]) == buffered && total == |buffered|
      invariant Fits(buffered, limit)
      invariant forall k | 0 <= k < i :: Fits(Joined(chunks[..k]), limit)
    {
      JoinedGrows(chunks, i);
      JoinedGrows(chunks, i + 1);
      assert chunks[..i + 1][..i] == chunks[..i];
      consumed := i + 1;
      if chunks[i] != [] {
        total := total + |chunks[i]|;
        if total > limit {
          return None, consumed, buffered;
        }
        assert (parts + [chunks[i]])[..|parts|] == parts;
        parts := parts + [chunks[i]];
        buffered := buffered + chunks[i];
      }
    }
    assert chunks[..|chunks|] == chunks;
    return Some(Joined(parts)), consumed, buffered;
  }

  /** A truthful declaration is refused exactly when the body it announces is, except that an empty
      body can only be refused by its declaration, and only under a negative limit. */
  lemma TruthfulHeaderAgrees(digits: DecimalDigits, header: string, body: Bytes, limit: int)
    requires ParseInt(digits, header) == Some(|body|)
    ensures DeclaredTooLarge(digits, Some(header), limit) <==> !Fits(body, limit) || (body == [] && limit < 0)
  {
  }

  /** The header an HTTP client writes for a body. */
  lemma PlainHeaderIsTruthful(digits: DecimalDigits, body: Bytes, limit: int)
    requires |Decimal(|body|)| <= MAX_INT_DIGITS && limit >= 0
    ensures DeclaredTooLarge(digits, Some(Decimal(|body|)), limit) <==> !Fits(body, limit)
  {
    DecimalIsReadBack(digits, |body|);
    TruthfulHeaderAgrees(digits, Decimal(|body|), body, limit);
  }

  datatype Parsed = TooLarge | NotJson | NotAnObject | Fields(entries: seq<Entry>)

  /** `json.loads` of bytes; none when it raises `ValueError`. */
  type Loads = Bytes -> Option<Json>

  method ParseBoundedJson(digits: DecimalDigits, loads: Loads, header: Option<string>, chunks: seq<Bytes>, limit: int)
    returns (r: Parsed)
    ensures var body := Joined(chunks);
      && (r.TooLarge? <==>
            || (header.Some? && ParseInt(digits, header.value).Some? && ParseInt(digits, header.value).value > limit)
            || (body != [] && |body| > limit))
      && (!r.TooLarge? ==>
            && (r.NotJson? <==> loads(body).None?)
            && (r.Fields? <==> loads(body).Some? && loads(body).value.Obj?)
            && (r.Fields? ==> loads(body) == Some(Obj(r.entries))))
  {
    if DeclaredTooLarge(digits, header, limit) {
      return TooLarge;
    }
    var raw, _, _ := ReadBoundedBody(chunks, limit);
    if raw.None? {
      return TooLarge;
    }
    var parsed := loads(raw.value);
    if parsed.None? {
      return NotJson;
    }
    if !parsed.value.Obj? {
      return NotAnObject;
    }
    return Fields(parsed.value.entries);
  }
}
