# Session-aware document guard: verified model

This project models the security core of the document guard and proves properties of it with Dafny.

* **Response scrubber.** The recursive walk over reply bodies that deletes credential keys, excises
  credential-shaped text and descends into JSON encoded in strings, with one depth budget of 100
  containers shared by an iterative guard, the in-place walk and the decoded structures; and the
  fail-closed handler around it. `CredentialShapes`, `Patterns`, `Tidying`, `SurvivingRuns`,
  `Idempotence`, `Joins`, `ScrubWalk`, `ScrubGuarantees`, `KeyNames`, `ScrubTexts`, `ScrubWeight`,
  `Nodes`, `DepthGuard`, `ScrubInPlace`, `ResponseHandler`.
* **Credential vending.** From a hostile request to an audit record, one `AssumeRole` call and four
  headers; the session, role and trust policies with a small IAM evaluator; and the whole path as a
  step machine in which any holder of credentials may turn against the table. `Iam`, `ScopedPolicies`,
  `Vending`, `Identity`, `ToolNames`, `Envelope`, `HeaderChannel`, `RequestInterceptor`, `Verdicts`,
  `Protocol`, `ToolAnswers`, `Noninterference`.
* **The shared table.** The conditional append of `reply` under concurrency and the bounded search.
  `Documents`, `ReplyTool`, `ReplyAccounting`, `SearchTool`.
* **Three components with unbounded inputs.** The double-checked STS client (`StsClient`), the bounded
  body reader (`BoundedBody`), the seed generator with its verifier (`SeedGenerator`, `SeedInvariants`).

`Text`, `Utf8`, `Json`, `Numerals` and `Wrappers` hold the vocabulary. `dafny verify dfyconfig.toml` checks everything.

## How the model is built

Code that changes things step by step is imperative here too: the scrubber works on heap objects
(`Nodes.Node`) and is proved against the function `ScrubWalk.Scrub`; the text passes, the guard's
explicit stack, the search loop, the header loops, the body reader, the seed generator and its verifier
are loops; the reply handler changes a table object; the interceptor appends to its log. The
properties are then proved of the specification functions.

Library and service calls are parameters: `json.loads` and `json.dumps`, NFKC and case folding
(`ScrubWalk.Platform`), SHA-256 (`Vending.Digest`), token verification (`Identity.Verifier`), `str.lower`
for titles, the decimal digits outside ASCII, the answer of STS, the paging of the service, the
transport of one update, and a fault flag for each call of the response handler that may raise.
`Platform.Lawful` is the one assumption on the JSON library: encoding a container of at most 100 levels
and decoding it again gives the same container, decoded objects have distinct keys, and blank text is
not JSON. `KeyNames.KnowsAscii` says what NFKC and case folding do to ASCII: NFKC leaves ASCII
characters as they are and turns separators into separators, and case folding lower-cases ASCII letters. `ScrubWeight` also assumes that JSON
text is no shorter than what it says, and for `WeightDrops` that it begins with a bracket. `WildcardFree(tableArn)` says that the configured table ARN
contains no `*` or `?`, as no ARN of a DynamoDB table does.

Time is counted in microseconds. A state of the protocol holds the table, the minted sessions, the
clock and one log for audit records and `AssumeRole` calls. Its steps are: any event with any content
reaching the interceptor; the tool of a forwarded call; any data-plane request made with a session's
credentials, whoever holds them; any other principal trying to assume a role, with any tags and any
session policy; and time passing.

## Where the code differs from what one might expect of it

* The id pattern ends in `$`, which admits one trailing newline: `ResponseHandler.SafeIdMayEndInNewline`.
* The text passes as a whole are not idempotent. Cutting one access key id can join the halves of
  another (`SurvivingRuns.KeyIdPassCanJoinAKeyId`) or leave a secret-key shape of a longer run
  (`Joins.LastPassCanLeaveASecret`). Four code points outside ASCII fold to letters of the SigV4 names
  although no run pattern includes them, so cutting a secret next to one can complete a parameter
  (`Idempotence.SecretPassCanJoinAParam`). They are idempotent exactly when no cut joins a shape
  (`Joins.IdempotentIffNothingJoined`), in particular for texts that hold neither an access key id nor
  such a code point (`Idempotence.TextScrubIsIdempotent`); session tokens never survive.
* A string body is charged as if one container enclosed it, so what it embeds may nest 99 containers,
  not 100: `ScrubWalk.ScrubCompletes`.
* The check for the reserved prefix `aws:` in a subject refuses nothing that the character check would
  not: `Vending.SubjectPassesIffStsName`.
* A comment (interceptor/handler.py:308-316) has the credentials travel as undeclared arguments, and the
  envelope's description speaks of a scope-injected body. The code forwards the body unchanged and sends
  headers: `RequestInterceptor.BodyIsForwardedUnchanged`.
* A body without bytes is never compared with the limit, so under a negative limit only a
  Content-Length of 0 is refused: `BoundedBody.TruthfulHeaderAgrees`.
* A reply whose answer is lost is reported as failed although its entry may be in the conversation
  (`ReplyAccounting.LostReplyCanBeAppended`), and a retried update can append it twice
  (`ReplyAccounting.RetryCanAppendTwice`). New entries are the reported successes exactly when every
  reply was appended as often as its caller was told: `ReplyAccounting.EntriesAreSuccessesIffEachIsTold`.

## Model

| member | source | states |
|---|---|---|
| `CredentialShapes.MixesClasses` | response_interceptor/credential_scrubber.py:336-361 | the early-exit loop answers whether the text has a lower-case letter, an upper-case letter and a digit |
| `CredentialShapes.Excise` | response_interceptor/credential_scrubber.py:364-394 | one pass is leftmost, non-overlapping substitution of the accepted matches, with their number |
| `CredentialShapes.ScrubText` | response_interceptor/credential_scrubber.py:397-432 | the four passes in order, their counts added up, and the tidy-up only after a removal |
| `CredentialShapes.CountIsZeroIffFree` | response_interceptor/credential_scrubber.py:364-394 | a pass removes nothing exactly when no accepted match starts anywhere, not even inside a rejected run |
| `CredentialShapes.ShapeReportedIffPresent` | response_interceptor/credential_scrubber.py:501-517 | a text is reported credential-shaped exactly when one of the four shapes occurs in the text as given, although the passes run one after the other |
| `Patterns.ScannersMatchThePatterns` | response_interceptor/credential_scrubber.py:225-260 | each of the four scanners finds a match of a length at a position exactly when the pattern, read as it stands with its bounds, repetitions and names, matches there |
| `Patterns.ReportedIffOneOccurs` | response_interceptor/credential_scrubber.py:501-517 | a text is reported credential-shaped exactly when one of the four patterns occurs in it, the two long runs with both cases and a digit |
| `CredentialShapes.TextShrinksByItsRemovals` | response_interceptor/credential_scrubber.py:397-432 | every removal costs at least one character, and the count is 0 exactly when the text comes back unchanged |
| `Tidying.TidyingTidies` | response_interceptor/credential_scrubber.py:262-266 | the tidy-up leaves no `&` behind a `?` and no separator before the end of a URL, keeps everything else in order, and leaves a tidy text alone |
| `Tidying.PassesTidy` | response_interceptor/credential_scrubber.py:427-430 | the two substitution passes compute the tidy form that is read off the text from its end |
| `Tidying.ScrubbedTextIsTidy` | response_interceptor/credential_scrubber.py:397-432 | a text from which something was excised carries no separator debris, and tidying costs it nothing but separators |
| `SurvivingRuns.CutKeepsRunsUnmixed` | response_interceptor/credential_scrubber.py:364-394 | a cut inside a token run, or one whose two ends are not both token characters, never completes a long mixed-class run |
| `SurvivingRuns.TokenPassLeavesNoLongRun` | response_interceptor/credential_scrubber.py:252-252 | the session-token pass leaves no mixed-class run of 300 or more token characters |
| `SurvivingRuns.LaterPassKeepsRunsUnmixed` | response_interceptor/credential_scrubber.py:397-432 | the secret-key pass, the key-id pass and the tidy-up never join or complete such a run again |
| `SurvivingRuns.NoSessionTokenSurvives` | response_interceptor/credential_scrubber.py:397-432 | after all passes no session token shape is left in any text |
| `SurvivingRuns.KeyIdPassCanJoinAKeyId` | response_interceptor/credential_scrubber.py:230-230 | a family of texts out of which cutting one access key id forms another |
| `Idempotence.CutCompletesNoParam` | response_interceptor/credential_scrubber.py:364-394 | a cut whose two ends cannot be neighbours within a SigV4 parameter completes none |
| `Idempotence.FirstPassLeavesNoParam` | response_interceptor/credential_scrubber.py:257-260 | one left-to-right pass leaves no SigV4 parameter, although each match hides its separators from the next |
| `Idempotence.OnlyGivenKeyIdsAreCut` | response_interceptor/credential_scrubber.py:397-425 | the first three passes never join an access key id: whatever id the last pass finds, the text came with one |
| `Idempotence.NoShapeSurvives` | response_interceptor/credential_scrubber.py:397-432 | a text that comes without an access key id leaves without session token, secret-key run and access key id, and without a SigV4 parameter when no code point folds into ASCII |
| `Idempotence.TextScrubIsIdempotent` | response_interceptor/credential_scrubber.py:397-432 | for such a text one scrub is enough, read off the text before the call; the exact condition on the cuts is `Joins.IdempotentIffNothingJoined` |
| `Idempotence.SecretPassCanJoinAParam` | response_interceptor/credential_scrubber.py:235-260 | a family of texts where cutting a secret completes a parameter through a folded code point |
| `Joins.CopiedOrTouched` | response_interceptor/credential_scrubber.py:364-394 | every window of what a cutting pass leaves stood in the text with the same neighbours, or one of its cuts touches it |
| `Joins.LeftIffJoined` | response_interceptor/credential_scrubber.py:364-394 | a pass leaves a shape the text did not show exactly when one of its cuts joins one |
| `Joins.OnlyThePassesMatter` | response_interceptor/credential_scrubber.py:421-432 | the tidy-up neither completes nor hides a key id, a secret-key run or a parameter |
| `Joins.KeyIdLeftIffJoined` | response_interceptor/credential_scrubber.py:397-432 | an access key id is left exactly when a cut of the last pass joins one |
| `Joins.SecretLeftIffJoined` | response_interceptor/credential_scrubber.py:397-432 | a secret-key run is left exactly when around a cut of the last pass a mixed run of exactly 40 remains |
| `Joins.ParamLeftIffJoined` | response_interceptor/credential_scrubber.py:397-432 | a SigV4 parameter is left exactly when a cut of one of the three later passes joins one; those that follow never destroy it |
| `Joins.LastPassCanLeaveASecret` | response_interceptor/credential_scrubber.py:230-237 | a family of mixed 60-character runs holding one key id, of which the scrub leaves a secret-key shape |
| `Joins.IdempotentIffNothingJoined` | response_interceptor/credential_scrubber.py:397-432 | scrubbing again finds something exactly when a cut joined a shape; otherwise it returns the text with count 0 |
| `DepthGuard.AssertContainerWithinDepth` | response_interceptor/credential_scrubber.py:435-474 | the loop over an explicit stack of half-read containers accepts exactly depth 100 or less; the most it holds is the depth of an accepted body and 101 for a refused one |
| `DepthGuard.AssertWithinDepth` | response_interceptor/credential_scrubber.py:435-474 | for any value, scalars included, the guard raises exactly when the recursive container depth exceeds 100, and changes nothing |
| `DepthGuard.TakeChild` | response_interceptor/credential_scrubber.py:452-474 | reading one child keeps the depth of the body accounted for by what was reached and what is still on the stack, and makes progress |
| `ScrubGuarantees.EmbeddedIff` | response_interceptor/credential_scrubber.py:553-583 | a text is descended into exactly when a bracket is its first character that is not a space, it is no longer than the cap and it decodes to a container; a decoder overflow is met under the same conditions |
| `ScrubWalk.ScrubCompletes` | response_interceptor/credential_scrubber.py:703-760 | a scrub completes exactly when the body nests at most 100 containers as it stands and at most 100 looking through decoded strings and past subtrees of deleted keys (99 for a string body) |
| `ScrubInPlace.ScrubNode` | response_interceptor/credential_scrubber.py:606-700 | the in-place walk refines the functional one: same result, same count, same depth failures, and the object graph stays a tree |
| `ScrubInPlace.ScrubDict` | response_interceptor/credential_scrubber.py:606-655 | deleting and overwriting entries over a snapshot of the keys gives the functional result |
| `ScrubInPlace.ScrubDictEntry` | response_interceptor/credential_scrubber.py:628-653 | one round: a credential key goes with its subtree, a blanked string goes, anything else keeps key and position |
| `ScrubInPlace.ScrubList` | response_interceptor/credential_scrubber.py:658-700 | rebuilding through the kept elements gives the functional result |
| `ScrubInPlace.ScrubStringValue` | response_interceptor/credential_scrubber.py:586-603 | a string is decoded, walked and encoded again, or excised as text, never both |
| `ScrubInPlace.CopyNode` | response_interceptor/credential_scrubber.py:745-750 | the deep copy has the same value and shares no object with the original |
| `ScrubInPlace.ScrubBody` | response_interceptor/credential_scrubber.py:703-760 | guard, copy and walk together compute `Scrub` into fresh objects and modify nothing the caller holds |
| `ScrubGuarantees.CountIsZeroIffUnchanged` | response_interceptor/credential_scrubber.py:703-760 | the reported count is 0 exactly when the returned body equals the given one |
| `ScrubGuarantees.CountIsExact` | response_interceptor/credential_scrubber.py:606-760 | the reported count is the number of topmost credential keys plus accepted matches, through every decoded string |
| `ScrubWeight.EveryRemovalLightens` | response_interceptor/credential_scrubber.py:606-760 | the weight of the result (containers, entries, elements, text seen through its encodings) is at least the reported count below that of the body as the walk finds it, for every body |
| `ScrubWeight.FoundNoLighter` | response_interceptor/credential_scrubber.py:553-583 | the walk finds no body lighter than it is; only text over the length cap counts by its length whatever it holds |
| `ScrubWeight.WeightDrops` | response_interceptor/credential_scrubber.py:606-760 | when no text over the cap holds JSON, the two weights are one and it drops by at least the count |
| `ScrubGuarantees.ScrubCleans` | response_interceptor/credential_scrubber.py:606-700 | the result is the cleaned form of the body: survivors keep key and order, and exactly the credential keys and the strings that were all credential material are gone |
| `ScrubTexts.ScrubbedLeavesAreSafe` | response_interceptor/credential_scrubber.py:586-700 | at any depth and through JSON in JSON, every text that was not taken for JSON comes back without a session token, and without any credential shape under the conditions of `Idempotence.NoShapeSurvives` |
| `KeyNames.CredentialKeyIff` | response_interceptor/credential_scrubber.py:164-206 | a key of ASCII characters and separators is a credential key exactly when it spells one of the 17 names, with separators anywhere and letters in any case |
| `KeyNames.SeparatorsMakeNoDifference` | response_interceptor/credential_scrubber.py:189-206 | inserting or deleting a separator anywhere in a key does not change whether it is one |
| `KeyNames.CaseMakesNoDifference` | response_interceptor/credential_scrubber.py:192-206 | nor does changing the case of any letter |
| `ScrubGuarantees.NoCredentialKeySurvives` | response_interceptor/credential_scrubber.py:606-655 | at no depth of the returned body does a key normalise to a credential name, whatever the platform's normalisation |
| `KeyNames.NoCredentialNameSurvives` | response_interceptor/credential_scrubber.py:606-655 | at no depth of the returned body does a key spell a credential name |
| `KeyNames.NoCredentialNameInStrings` | response_interceptor/credential_scrubber.py:520-583 | nor in what a returned string decodes to, when the given string was JSON of a container within the cap |
| `KeyNames.SpelledEntryIsRemoved` | response_interceptor/credential_scrubber.py:628-634 | an entry whose key spells a credential name is gone with its subtree and counts 1, and the rest comes out as without it |
| `ScrubGuarantees.EmbeddedJsonIsCleaned` | response_interceptor/credential_scrubber.py:520-583 | the same holds inside every string that embedded a container, through any nesting of JSON in JSON |
| `ResponseHandler.Attempt.Run` | response_interceptor/handler.py:187-240 | the four locals the fault branch reads, for every event shape and every fault |
| `ResponseHandler.Handle` | response_interceptor/handler.py:161-274 | the handler never raises and answers by the decision table `Handled` |
| `ResponseHandler.RepliesAreScrubbedUnlessCleared` | response_interceptor/handler.py:187-274 | told of the event alone: an unreadable envelope gives the empty default; a request that names another method than a tool call, with no fault in the gate, gives the reply unchanged; anything else a completed scrub or the withheld body |
| `ResponseHandler.ReplyIsOnThePath` | response_interceptor/handler.py:187-203 | body and status are those at their paths in the event, with their defaults, unless something on the way is not a dict |
| `ResponseHandler.OnlyVouchedBodiesGoOut` | response_interceptor/handler.py:302-332 | for a tool call, a missing, unreadable or non-text method, or a faulting gate, what goes out is the empty default, a completed scrub without credential keys or names, or a withheld error |
| `ResponseHandler.OtherRepliesPassThrough` | response_interceptor/handler.py:205-222 | for any other method the reply goes out with its body and status as they came |
| `ResponseHandler.CleanBodiesRoundTrip` | response_interceptor/handler.py:205-240 | a scrubbable body goes out unchanged exactly when the gate cleared it or nothing was to remove |
| `ResponseHandler.WithheldShape` | response_interceptor/handler.py:335-368 | a batch of n is answered with min(64, max(1, n)) errors, the i-th for the i-th entry, anything else with one, each a JSON-RPC internal error with its entry's own safe id or null and nothing else |
| `ResponseHandler.EchoedIdIff` | response_interceptor/handler.py:371-419 | an entry's own id is echoed exactly when it is an integer, or a text of 1 to 128 pattern characters in which no credential shape occurs and whose check does not fail |
| `ResponseHandler.EchoedIdIsSafe` | response_interceptor/handler.py:371-419 | an echoed id is null, an integer, or a string of at most 128 pattern characters without credential shape |
| `ResponseHandler.SafeIdMayEndInNewline` | response_interceptor/handler.py:148-153 | the pattern confines an id to its characters exactly when it does not end in a newline |
| `Iam.WildcardFreeIsEquality` | cdk/documents_roles.py:139-209 | StringLike with a wildcard-free pattern is equality |
| `Iam.WildcardsWiden` | interceptor/scoped_credentials.py:165-181 | any pattern with a wildcard matches some other text |
| `Iam.ConfinesIffWildcardFree` | interceptor/scoped_credentials.py:165-218 | a tag value confines StringLike to itself exactly when it holds neither forbidden character |
| `ScopedPolicies.SessionGate` | interceptor/scoped_credentials.py:461-537 | the session policy allows exactly its actions on the table, keyed to the scope, before the expiry; the empty key set is refused although ForAllValues is vacuous |
| `ScopedPolicies.TagConditionsConfine` | cdk/documents_roles.py:139-209 | under a wildcard-free tag the tag conditions hold exactly of requests keyed to the tag |
| `ScopedPolicies.UntaggedIsRefused` | cdk/documents_roles.py:139-209 | a session without the tag gets nothing through the tag conditions |
| `ScopedPolicies.ReadRoleGate` | cdk/documents_roles.py:289-340 | the read role alone allows exactly the read actions on the table keyed to the tag |
| `ScopedPolicies.WriteRoleGate` | cdk/documents_roles.py:342-369 | the write role alone allows exactly the update keyed to the tag |
| `ScopedPolicies.TagGateConfinesIffWildcardFree` | interceptor/scoped_credentials.py:165-218 | the second gate confines all requests to the tag exactly when the tag has no wildcard, so the tag check is needed |
| `ScopedPolicies.IndexQueriesAreDenied` | cdk/documents_roles.py:315-337 | queries on any index stay denied whatever statements are added to the read role |
| `ScopedPolicies.TrustGate` | cdk/lambda_iam.py:123-193 | a role can be assumed exactly by the named principals with a scope tag present, over all three actions STS checks |
| `Vending.SubjectPassesIffStsName` | interceptor/scoped_credentials.py:317-352 | a subject becomes the source identity exactly when STS would take it as it is |
| `Vending.SessionNameIsTotal` | interceptor/scoped_credentials.py:355-412 | every identifier with content yields a session name STS accepts, and a blank one yields none |
| `Vending.SessionNamesJoin` | interceptor/scoped_credentials.py:355-412 | two identifiers share a session name only if they are equal or both digested with colliding digests |
| `Vending.VerbatimIffStsName` | interceptor/scoped_credentials.py:355-412 | an identifier is passed on readable exactly when STS would take it so, and otherwise as 32 digits of its digest |
| `Vending.WindowLength` | interceptor/scoped_credentials.py:223-240 | 60 seconds truncated to whole seconds leave more than 59 and at most 60 |
| `Vending.EachGateConfines` | interceptor/scoped_credentials.py:540-666 | under any vended credentials each of the two policies alone confines an arbitrary request to the scope |
| `Vending.RolesAreSeparate` | interceptor/scoped_credentials.py:135-136 | whatever is allowed under read credentials is a read, and under write credentials the update |
| `Identity.KnownScopesAreStripped` | interceptor/jwt_claims.py:181-194 | for any operator setting every known scope has content and is untouched by stripping |
| `Identity.KnownScopeIff` | interceptor/jwt_claims.py:181-194 | a scope is known exactly when the operator lists it, or lists nothing and it is one of the two built-in ones |
| `Identity.SplitUndoesJoin` | interceptor/jwt_claims.py:193-194 | the setting is split at its commas and nowhere else |
| `Identity.BearerTokenIff` | interceptor/jwt_claims.py:268-275 | a token is found exactly behind the word "bearer", in any letter case, and a space |
| `Identity.ScopeIffOnlyKnownGroup` | interceptor/jwt_claims.py:455-483 | a scope is served exactly when it occurs among the groups, at any position and however often, and no other known scope does |
| `Identity.IdentityIff` | interceptor/jwt_claims.py:239-289 | an identity is granted exactly when the token verifies to claims of an access token, of a listed client, with one known scope and a non-blank subject, both from the same claims |
| `Identity.ServedScopeIsKnown` | interceptor/jwt_claims.py:239-289 | whatever the token says, the served scope is in the operator's set |
| `Identity.NoClientsNoIdentity` | interceptor/jwt_claims.py:386-419 | with an empty client allow-list nobody has an identity |
| `ToolNames.ClassifiedIffSuffixed` | interceptor/tool_classifier.py:59-117 | a call is classified as a tool exactly when its name ends in the delimiter and that tool's name |
| `ToolNames.HeadersAreFoundInAnyCase` | interceptor/handler.py:124-152 | the first header whose name differs at most in letter case is answered, and nothing only when there is none |
| `ToolNames.SessionIdIsFound` | interceptor/tool_classifier.py:120-144 | the session id is the first `Mcp-Session-Id` with content, in any letter case, and there is none only without one |
| `HeaderChannel.BuildCredentialHeaders` | interceptor/credential_headers.py:133-179 | the two loops produce the four headers, or nothing when a value is missing, blank or over 4096 bytes |
| `HeaderChannel.ChannelRoundTrips` | tools/common/credentials_context.py:138-220 | whatever the client sent in any letter case, the tool reads exactly the vended scope and credentials, or fails when one is blank; never a different value |
| `HeaderChannel.DeliveryExists` | interceptor/credential_headers.py:133-179 | the contract assumed of the gateway can be met, whatever the client sent |
| `RequestInterceptor.RecordedArguments` | interceptor/audit_record.py:83-126 | every argument but the excluded one is on record under its key, whole or as a marked prefix, and nothing else is |
| `RequestInterceptor.LongTextsAreMarked` | interceptor/audit_record.py:83-109 | a text over 2000 characters is recorded as its first 2000, with a mark and its length; shorter ones as they are |
| `RequestInterceptor.Interceptor.Handle` | interceptor/handler.py:160-383 | the ordered run of the handler: verdict and appended log for every event and every answer of STS |
| `RequestInterceptor.EverySessionIsAccountedFor` | interceptor/handler.py:243-345 | a call is on record exactly when it asks for a tool under a token that verifies, and the record names that token's scope and subject; an `AssumeRole` follows exactly when STS issues a session, agrees with the record, and carries the one known scope; a refused call leaves its record alone |
| `RequestInterceptor.BodyIsForwardedUnchanged` | interceptor/handler.py:196-383 | no request body is ever altered, only tool calls with a known tool reach a tool, other methods pass without a vend, and refusals answer the request's id |
| `RequestInterceptor.GoIsVerified` | interceptor/handler.py:247-305 | nothing is vended before the token in the event's own header verified to a known scope and a subject, and the record is built from that identity |
| `RequestInterceptor.ReadsIffAsked` | interceptor/handler.py:196-305 | a request is taken up exactly when it is a readable call of a known tool and its own token verifies |
| `RequestInterceptor.VendedCall` | interceptor/handler.py:405-464 | the arguments of the STS call agree with the record in every joined field |
| `RequestInterceptor.OwnCallsAreTrusted` | cdk/lambda_iam.py:128-193 | the trust policy never stands in the way of the interceptor's own tagged calls |
| `Verdicts.AskedIff` | interceptor/handler.py:196-283 | a tool is asked for exactly by a `tools/call` on the path of the event whose name ends in that tool and whose arguments are a dict or absent |
| `Verdicts.ForwardedIffGranted` | interceptor/handler.py:196-383 | a call is forwarded exactly when it asks for a tool, its token verifies, scope, subject and session can be written into an `AssumeRole`, and STS issues three fields of at most 4096 bytes |
| `Verdicts.OtherVerdictsIff` | interceptor/handler.py:196-283 | the interceptor fails exactly for what it cannot read, and passes on exactly the other methods; so all remaining calls get the generic error |
| `Protocol.StepKeepsInv` | interceptor/handler.py:160-383 | every step, hostile ones included, keeps all sessions scoped four times over to one known scope to which a token verified when they were minted, and all logged calls joined |
| `Protocol.EveryReachableStateIsSound` | interceptor/handler.py:243-345 | the same in every reachable state of every run |
| `Protocol.EveryStepIsAccountedFor` | interceptor/handler.py:282-331 | in every step of every run a verified tool call leaves its record and, exactly when STS issues one, its session; a refused call leaves only the record, and nothing else is ever logged |
| `ToolAnswers.GrantedCallLeavesWork` | interceptor/handler.py:343-383 | such a call leaves a session of its own, and exactly when the headers arrive it holds the work of that tool: the arguments of the request and the scope of the caller |
| `Protocol.SessionIsConfined` | interceptor/scoped_credentials.py:540-666 | in every such state a session may do exactly its role's actions, on the table, keyed to its scope, before its expiry |
| `Protocol.UsableWindow` | interceptor/scoped_credentials.py:223-240 | no session is usable 60 seconds after it was minted, and each is for its first 59 |
| `ToolAnswers.ReadAnswersTheBody` | tools/read_document/handler.py:83-162 | in every reachable state a read answers exactly the body of the document with that id in the caller's partition, "not found" exactly when there is none, and changes nothing |
| `ToolAnswers.SearchAnswersTheMatches` | tools/search_documents/handler.py:242-318 | in every reachable state a search answers the first 25 matches of the pages it reads in the caller's partition for the stripped, lower-cased query, and changes nothing |
| `ToolAnswers.ReplyAppendsOrRefuses` | tools/reply/handler.py:204-355 | in every reachable state a reply appends exactly one entry to the document with that id in the caller's partition and reports it, or is refused and changes nothing, exactly when there is none or it is full |
| `ToolAnswers.BlockedToolsChangeNothing` | tools/read_document/handler.py:113-139 | after expiry, or when the call does not get through, a tool changes nothing and answers a fixed error |
| `ToolAnswers.EmptyArgumentsAreRefused` | tools/reply/handler.py:235-241 | a missing, blank or non-text argument is refused and nothing is touched |
| `Noninterference.OthersAreInvisible` | interceptor/handler.py:160-383 | a step that acts for another scope, or for none, leaves a scope's partition and sessions as they were |
| `Noninterference.OwnStepsAgree` | tools/read_document/handler.py:83-162 | from states that look alike to a scope, its own steps get the same answers and leave states that look alike |
| `Noninterference.ScopesDoNotInterfere` | tools/search_documents/handler.py:242-318 | two runs with equal partitions for a scope and the same timed steps of its own give it the same answers and the same partition, whatever everyone else does and holds |
| `Noninterference.UnknownPartitionsAreOutOfReach` | interceptor/jwt_claims.py:181-194 | for any operator setting, partitions outside the known scopes are never changed, and nobody's answers depend on them |
| `Documents.Find` | tools/reply/handler.py:306-327 | the key condition finds an item exactly when the partition has one |
| `ReplyTool.DocumentsTable.UpdateItem` | tools/reply/handler.py:306-327 | the conditional update appends one entry and touches nothing else, or changes nothing |
| `ReplyTool.DocumentsTable.Reply` | tools/reply/handler.py:204-355 | each answer of the handler and the table it leaves, for every input and every transport outcome |
| `ReplyTool.ConversationFits` | tools/reply/handler.py:131-159 | the two bounds together keep a conversation within 200,000 UTF-8 bytes |
| `Utf8.LengthOfTheEncoding` | tools/reply/handler.py:246-246 | the length that is bounded is that of the UTF-8 encoding, which can be decoded |
| `ReplyTool.StepKeepsInv` | tools/reply/handler.py:302-355 | each send, answer, loss and delivery, late and repeated ones included, keeps bounds, append-only growth and the count of applied updates |
| `ReplyTool.ConcurrentRepliesAreSafe` | tools/reply/handler.py:235-355 | over every interleaving, stale and repeated deliveries and lost answers included: both bounds hold, conversations only grow at the end, no document appears or changes otherwise, every success has its entry, and successes never exceed new entries |
| `ReplyAccounting.EntriesAreSuccessesIffEachIsTold` | tools/reply/handler.py:302-355 | new entries equal reported successes exactly when every reply was appended as often as its caller was told |
| `ReplyAccounting.ReliableRepliesAddUp` | tools/reply/handler.py:302-355 | they are equal once all have their answer, when the transport delivers each update at most once and loses none that it delivers |
| `ReplyAccounting.RetryCanAppendTwice` | tools/reply/handler.py:306-348 | for every document with room a run where a retry leaves two entries and one success |
| `ReplyAccounting.LostReplyCanBeAppended` | tools/reply/handler.py:341-348 | for every document with room a run where a reply reported as failed leaves its entry |
| `SearchTool.QueryServedPartition` | tools/search_documents/handler.py:146-239 | the loop reads on until 25 matches, five pages or the end, returns the first 25 matches of all it read, and says it was cut short exactly when it read a 26th match or left a page at one of its bounds |
| `SearchTool.SearchFindsWhatItReads` | tools/search_documents/handler.py:192-239 | the same of the search as a function, for every paging |
| `SearchTool.SomePageIsLast` | tools/search_documents/handler.py:189-191 | every search has a last page, and only one |
| `SearchTool.MatchingIff` | tools/search_documents/handler.py:127-143 | a document is a match exactly when its lower-cased title contains the query |
| `SearchTool.SearchReturnsFirstMatches` | tools/search_documents/handler.py:192-239 | under every paging the results are the first at most 25 matches in key order, and all of them unless truncated |
| `SearchTool.FullPagesReachTheEnd` | tools/search_documents/handler.py:121-124 | with full pages, up to 500 documents and fewer than 25 matches the search is complete and says so |
| `StsClient.StepKeepsInv` | interceptor/scoped_credentials.py:418-458 | every action of every thread keeps the lock discipline and at most one client owed per reset |
| `StsClient.OneClientPerReset` | interceptor/scoped_credentials.py:422-458 | for any threads and interleaving: at most one client plus one per reset, never two constructions at once, no call returns none, and without resets all calls return the same client |
| `StsClient.SomeThreadCanMove` | interceptor/scoped_credentials.py:438-445 | no interleaving deadlocks |
| `BoundedBody.MaxBodyBytes` | agent/request_limits.py:70-91 | a positive integer is honoured however `int` reads it, anything else gives the default, and the limit is always positive |
| `BoundedBody.ReadBoundedBody` | agent/request_limits.py:128-157 | the outcome depends only on the concatenated bytes, at most the limit is buffered, and nothing is consumed after the first crossing chunk |
| `BoundedBody.TruthfulHeaderAgrees` | agent/request_limits.py:94-116 | a truthful Content-Length is refused exactly when the read is, apart from an empty body under a negative limit |
| `BoundedBody.PlainHeaderIsTruthful` | agent/request_limits.py:108-116 | the decimal numeral a client writes for its body is such a header |
| `BoundedBody.ParseBoundedJson` | agent/request_limits.py:160-202 | which of the three refusals or the parsed object comes back, as a function of header and concatenation |
| `Numerals.PaddedIsReadBack` | cdk/seed/documents_seed_generator.py:89-89 | zero-padded numerals are injective, past 999 as before |
| `Numerals.SignedDecimalIsReadBack` | agent/request_limits.py:108-116 | a signed decimal numeral is read as its number |
| `SeedGenerator.DocumentIdsAreInjective` | cdk/seed/documents_seed_generator.py:67-89 | equal identifiers have equal numbers, across prefixes of different length |
| `SeedGenerator.IdsNameTheirScope` | cdk/seed/documents_seed_generator.py:67-89 | an identifier is the prefix of its scope and the number in at least three digits |
| `SeedGenerator.FixedIdentifiers` | cdk/seed/documents_seed_generator.py:221-303 | the identifiers of the six fixed documents |
| `SeedGenerator.GenerateDocuments` | cdk/seed/documents_seed_generator.py:221-341 | the loops build exactly the `count` slots, and raise exactly for a count below 10 or a violated invariant |
| `SeedGenerator.GeneratedDocumentsPass` | cdk/seed/documents_seed_generator.py:331-341 | for every count of 10 or more the verification passes |
| `SeedGenerator.IdsAreDistinct` | cdk/seed/documents_seed_generator.py:67-89 | identifiers are pairwise distinct for every count |
| `SeedGenerator.NoiseIsEven` | cdk/seed/documents_seed_generator.py:304-329 | the share of each other scope in the noise, for every count |
| `SeedGenerator.SharesDifferByOne` | cdk/seed/documents_seed_generator.py:304-329 | any two shares differ by at most one |
| `SeedInvariants.VerifySeedInvariants` | cdk/seed/seed_invariants.py:22-120 | the verifier accepts exactly the lists that meet all six invariants and reports the first one violated |
| `SeedInvariants.DuplicateKey` | cdk/seed/seed_invariants.py:109-120 | growing the set of seen keys detects exactly the duplicate composite keys |

## Left out

- Idempotence.TextScrubIsIdempotent: one direction, as a condition on the text as given; both directions are in `Joins`, in terms of the cuts.
- Idempotence.NoShapeSurvives: one direction, likewise.
- ScrubWeight.EveryRemovalLightens: that JSON text is no shorter than what it says (`ScrubWeight.Compact`) is assumed of the parser.
- SeedGenerator.GeneratedDocumentsPass: the facts about the literal seed texts (no "refund" in served titles, no marker in served bodies, refund in the trap titles) are its precondition; the texts themselves are not part of the model.
- A string that becomes JSON only after excision is not decoded again by the code, and no claim is made about what it embeds.
- The regex engine: the six patterns are written as scanners over the code points they name.
- KeyNames.CredentialKeyIff: keys with other characters than ASCII and separators, which depend on the Unicode tables.
- NFKC, case folding, SHA-256, RS256 and JWKS handling, the text grammar of JSON, and how a decoder reports too deep nesting: parameters of the model.
- Dict keys that are not strings, float values beyond their literal text, and duplicate keys in one JSON object.
- Lower-casing of header names is modelled for ASCII letters.
- Read credentials never write and write credentials never read as actions. An update can be asked to return attributes of the item it changes, within its own partition.
- That the three credential strings identify their session is a contract of STS: the protocol names a session by its scope and invocation, and `ChannelRoundTrips` carries the strings.
- Missing environment variables of the interceptor, expiry of the interceptor's own credentials and logging: a vend that fails for such a reason is an answer `Failed` of STS.
- How the service derives partition keys from a request: the keys are part of the request, and one without keys, or on another resource than the table, is taken to reach everything.
- DynamoDB's item size limit, capacity and eventual consistency; queries are paged over one state of the partition.
- Texts with lone surrogates, which Python strings may hold and UTF-8 cannot encode: a reply with one raises instead of answering.
- Python's recursion limit while copying or encoding a body of at most 100 containers.
- CDK constructs other than the policy documents, the agent's endpoint and prompts, scripts and notes: deployment and I/O.
