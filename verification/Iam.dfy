/** The part of IAM policy evaluation that the scoped roles rely on. */
module Iam {

  // ----- string patterns ------------------------------------------------------------------

  /** `StringLike`: `*` stands for any text, `?` for any one character. */
  predicate GlobMatch(pattern: string, s: string)
    decreases |pattern| + |s|
  {
    if pattern == "" then s == ""
    else if pattern[0] == '*' then GlobMatch(pattern[1..], s) || (s != "" && GlobMatch(pattern, s[1..]))
    else s != "" && (pattern[0] == '?' || pattern[0] == s[0]) && GlobMatch(pattern[1..], s[1..])
  }

  predicate WildcardFree(s: string) {
    '*' !in s && '?' !in s
  }

  /** Up to its first wildcard a pattern is matched literally. */
  lemma {:induction false} LiteralPrefix(prefix: string, rest: string, s: string)
    requires WildcardFree(prefix)
    ensures GlobMatch(prefix + rest, s) <==> prefix <= s && GlobMatch(rest, s[|prefix|..])
    decreases |prefix|
  {
    if prefix == "" {
      assert prefix + rest == rest;
    } else {
      assert (prefix + rest)[1..] == prefix[1..] + rest;
      if s != "" {
        LiteralPrefix(prefix[1..], rest, s[1..]);
        assert prefix <= s <==> prefix[0] == s[0] && prefix[1..] <= s[1..];
        if prefix <= s {
          assert s[1..][|prefix| - 1..] == s[|prefix|..];
        }
      }
    }
  }

  /** Without wildcards `StringLike` is equality. */
  lemma WildcardFreeIsEquality(pattern: string, s: string)
    requires WildcardFree(pattern)
    ensures GlobMatch(pattern, s) <==> pattern == s
  {
    assert pattern + "" == pattern;
    LiteralPrefix(pattern, "", s);
    if pattern <= s && s[|pattern|..] == "" {
      assert s == s[..|pattern|] + s[|pattern|..];
    }
  }

  /** A text other than the pattern itself that the pattern matches. */
  function Widening(pattern: string): string
    requires !WildcardFree(pattern)
  {
    if pattern[0] == '*' then if pattern[1..] == "" then "" else Sample(pattern[1..])
    else if pattern[0] == '?' then "a" + Sample(pattern[1..])
    else [pattern[0]] + Widening(pattern[1..])
  }

  /** Some text the pattern matches, no longer than the pattern. */
  function Sample(pattern: string): (s: string)
    ensures GlobMatch(pattern, s) && |s| <= |pattern|
  {
    if pattern == "" then ""
    else if pattern[0] == '*' then Sample(pattern[1..])
    else
      var s := [if pattern[0] == '?' then 'a' else pattern[0]] + Sample(pattern[1..]);
      assert s[1..] == Sample(pattern[1..]);
      s
  }

  lemma {:induction false} WildcardsWiden(pattern: string)
    requires !WildcardFree(pattern)
    ensures GlobMatch(pattern, Widening(pattern)) && Widening(pattern) != pattern
    decreases |pattern|
  {
    var w := Widening(pattern);
    if pattern[0] == '*' {
      assert GlobMatch(pattern[1..], w);
      assert |w| < |pattern|;
    } else if pattern[0] == '?' {
      assert w[1..] == Sample(pattern[1..]);
      assert w[0] != pattern[0];
    } else {
      assert pattern == [pattern[0]] + pattern[1..];
      WildcardsWiden(pattern[1..]);
      assert w[1..] == Widening(pattern[1..]);
    }
  }

  ghost predicate MatchesOnlyItself(pattern: string) {
    forall s :: GlobMatch(pattern, s) ==> s == pattern
  }

  /** A pattern confines matching to its own text exactly when it has no wildcard. */
  lemma ConfinesIffWildcardFree(pattern: string)
    ensures MatchesOnlyItself(pattern) <==> WildcardFree(pattern)
  {
    if WildcardFree(pattern) {
      forall s ensures GlobMatch(pattern, s) ==> s == pattern {
        WildcardFreeIsEquality(pattern, s);
      }
    } else {
      WildcardsWiden(pattern);
      assert !MatchesOnlyItself(pattern);
    }
  }

  // ----- policies -------------------------------------------------------------------------

  /** A literal value, or `${key}` resolved from the request context. */
  datatype Value = Literal(s: string) | Variable(key: string)

  datatype Condition =
    | ForAllStringEquals(key: string, values: seq<Value>)
    | ForAllStringLike(key: string, values: seq<Value>)
    | StringLike(key: string, value: Value)
    | NullCheck(key: string, isNull: bool)
    | DateLessThan(key: string, bound: int)

  datatype Effect = Allow | Deny

  /** No principals means the policy names none (an identity policy); no resources means it has no
      `Resource` element (a trust policy). */
  datatype Statement = Statement(
    effect: Effect,
    principals: seq<string>,
    actions: seq<string>,
    resources: seq<string>,
    conditions: seq<Condition>)

  type Policy = seq<Statement>

  /** One authorisation request. `keys` holds the condition keys of the request context with their
      values, `now` the value of `aws:CurrentTime`. */
  datatype Request = Request(principal: string, action: string, resource: string, keys: map<string, seq<string>>,
      now: int)
  {
    function Values(key: string): seq<string> {
      if key in keys then keys[key] else []
    }
  }

  /** The comparison value, unless it is a variable the request context does not resolve. */
  function Resolve(v: Value, r: Request): (texts: seq<string>)
    ensures |texts| <= 1
  {
    match v
    case Literal(s) => [s]
    case Variable(key) => if |r.Values(key)| == 1 then r.Values(key) else []
  }

  predicate EqualsSome(s: string, values: seq<Value>, r: Request) {
    exists i | 0 <= i < |values| :: Resolve(values[i], r) == [s]
  }

  predicate LikeSome(s: string, values: seq<Value>, r: Request) {
    exists i | 0 <= i < |values| :: Resolve(values[i], r) != [] && GlobMatch(Resolve(values[i], r)[0], s)
  }

  /** `ForAllValues` holds of an absent key: there is no value to fail the comparison. */
  predicate Holds(c: Condition, r: Request) {
    match c
    case ForAllStringEquals(key, values) => forall i | 0 <= i < |r.Values(key)| ::
        EqualsSome(r.Values(key)[i], values, r)
    case ForAllStringLike(key, values) => forall i | 0 <= i < |r.Values(key)| :: LikeSome(r.Values(key)[i], values, r)
    case StringLike(key, value) => |r.Values(key)| == 1 && LikeSome(r.Values(key)[0], [value], r)
    case NullCheck(key, isNull) => isNull == (r.Values(key) == [])
    case DateLessThan(_, bound) => r.now < bound
  }

  predicate Applies(s: Statement, r: Request) {
    && (s.principals == [] || r.principal in s.principals)
    && r.action in s.actions
    && (s.resources == [] || exists i | 0 <= i < |s.resources| :: GlobMatch(s.resources[i], r.resource))
    && forall i | 0 <= i < |s.conditions| :: Holds(s.conditions[i], r)
  }

  /** An applying `Deny` wins; otherwise some `Allow` must apply. */
  predicate Allows(p: Policy, r: Request) {
    && (forall i | 0 <= i < |p| :: p[i].effect == Deny ==> !Applies(p[i], r))
    && (exists i | 0 <= i < |p| :: p[i].effect == Allow && Applies(p[i], r))
  }
}
