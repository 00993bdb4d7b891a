# OpenID4VP: a verified model of submission processing and request agreement

This project models, in Dafny, two parts of the `openid4vp` crate and proves what they promise.

**Presentation Exchange submissions.** A verifier receives a presentation submission: a list of
descriptor maps, each selecting items of a JSON value by a path, possibly nested. The crate walks
them, decodes every selected item, checks it against the constraints of its input descriptor and
appends an input to one shared vector, linking parents to children by position. It then builds an
inverse index over the vector and decides the definition's requirements against both. The model keeps
the vector as a mutable object that the traversal appends to. It relates the traversal to a forest of
inputs, and the forest to a specification that has no traversal in it.

**Authorization requests.** A verifier builds a request by inserting typed parameters into an untyped
object, flattens the object into a URL, and the wallet parses it back and checks it against its own
metadata, which holds the same facts in an untyped object and in cached fields. The model relates what
is built to what is read and what the builder checks to what the wallet checks.

The files, bottom up:

- `Wrappers.dfy`, `Json.dfy`, `ClaimFormats.dfy`: options and results, JSON values, claim formats.
- `InputDescriptors.dfy`, `TypeHints.dfy`, `PresentationDefinitions.dfy`, `DefinitionForms.dfy`:
  constraints, field queries, credential type hints, definitions and their JSON form.
- `DecodedInputs.dfy`, `InputForests.dfy`: the list of inputs, and the forest it lays out.
- `DescriptorMaps.dfy`, `SelectionSpec.dfy`, `TraversalBounds.dfy`: the traversal, its specification,
  its cost.
- `SubmissionRequirements.dfy`, `PresentationSubmissions.dfy`: requirement trees, whole submissions.
- `SubmissionTheorems.dfy`, `VerdictTheorems.dfy`: shape of the list, sources of the inputs, what the
  verdict depends on.
- `Objects.dfy`, `ClientIds.dfy`, `Dcql.dfy`, `RequestParameters.dfy`: untyped objects, client ids, DCQL
  queries, typed parameters.
- `AuthorizationRequests.dfy`, `WalletMetadatas.dfy`, `RequestVerification.dfy`, `RequestBuilders.dfy`,
  `RequestAgreement.dfy`, `BuildConditions.dfy`: requests and their URLs, wallet metadata, the wallet's
  checks, the builder, the agreement of the two sides, and when a build succeeds.

Library code enters as values of function type: JSONPath evaluation and JSON Schema validation
(`Evaluator`), the claims decoder (`ClaimsDecoder`), JSON text, form encoding and URLs (`Codec`), serde
conversions (`Parts` for what a definition is made of, `Serde` for the other parameters), signing
(`Client`), wallet hooks and nonce checks (`Hook`, `issued`). What is assumed of them is one law,
`Objects.Lawful`: parsing JSON text, a form or a URL that was printed gives it back. Nothing is assumed
of the serde conversions, which do lose information: what a theorem needs of them is part of its
statement, for the one value concerned. Nothing is assumed of the evaluator or the decoder beyond being
functions, and the submission half of the model needs no law at all.

Where the code and its documentation differ, the model follows the code and says when they agree:

- An optional field that is present with failing values only is documented as a mismatch but passes
  (`DocumentedRuleVersusMatches`, with a witness in `OptionalFieldPassesUnfiltered`).
- A `pick` over nested requirements ignores its own bounds and needs every one of them
  (`PickOverNestedNeedsAll`), where section "Submission Requirement Rules" of Presentation Exchange
  v2.0.0 lets it choose (`MeetsRules`). The two agree on a pick exactly when the number of nested
  requirements met is within its bounds just if it is the number of all (`NestedPickAgreesIff`); they
  agree on a whole tree, for every definition and input, when the bounds of each nested pick allow all
  and no fewer (`RulesKeptWherePicksMeanAll`), and no other bounds will do (`OtherPicksAreBroken`, with
  an input in `PickOneOfTwoIsRefused`).
- A descriptor without constraint fields, which the documentation of `Constraints` allows, is written
  without a `fields` entry that reading then requires, so a definition with one is never built into a
  request (`UnconstrainedDescriptorNeverBuilds`). `DefinitionReadsBackIff` says which definitions do
  read back from their own form.
- A `pick` over a group counts inputs, not descriptors (`PickCountsInputs`).
- A plain build in a Digital Credentials API mode removes the client id that parsing then requires, so
  no such build succeeds (`PlainDcApiNeverBuilds`).
- A plain request with a `request` or `request_uri` parameter is not read back (`PlainUrlRoundTripExactly`):
  its URL is taken for a signed request by reference where `request_uri` is a URL, with a known method
  or none, and cannot be read at all otherwise (`ReservedReading`, with an input in
  `SomeReservedIsRefused`).
- A prefix added to the metadata is seen by the wallet's check but not by the builder's: the two agree
  exactly on the prefixes that were not added or were cached before (`PrefixChecksAgreeIff`, with a run
  in `SomePrefixIsAdded`).

## Model

| member | source | states |
|---|---|---|
| InputDescriptors.QueryAgreesWithRequestedFields | src/core/input_descriptor.rs:502-542 | a field query answers with the first filter-passing value among the raw fields `requested_fields` reports for that field, and answers nothing exactly when none passes |
| InputDescriptors.QueryFindsFirst | src/core/input_descriptor.rs:502-524 | a field query answers with the first value, in the order of the paths and of what each selects, that the filter lets pass, and with nothing when there is none |
| InputDescriptors.RequestedFieldReports | src/core/input_descriptor.rs:526-553 | a field is reported as required unless it says `optional: true`, with exactly the values its paths select |
| InputDescriptors.MatchesIff | src/core/input_descriptor.rs:254-262 | constraints match exactly when every field that does not say `optional: true` has a path that selects a value its filter, if any, validates |
| InputDescriptors.DocumentedRuleVersusMatches | src/core/input_descriptor.rs:475-497 | the documented rule for optional fields holds exactly when the code matches and no optional field is present with failing values only |
| InputDescriptors.OptionalFieldPassesUnfiltered | src/core/input_descriptor.rs:254-262 | a concrete optional field whose only value fails its filter, the schema `false`, and the value still matches |
| TypeHints.CredentialTypesHint | src/core/input_descriptor.rs:564-645 | a string is hinted exactly when some path mentions `type` and the filter names it: as `const`, as `contains.const`, among the strings of `contains.enum`, or as an alternative of `pattern` once anchors and parentheses are trimmed; the hints come in this order |
| TypeHints.FiltersHintTheirTypes | src/core/input_descriptor.rs:577-641 | a filter of each of the four kinds hints exactly the types it was written for, in order; a pattern exactly when its outer names survive the trimming |
| TypeHints.SplitMeaning | src/core/input_descriptor.rs:632-636 | a split yields exactly the separator-free pieces that stand between separators or ends |
| TypeHints.PatternHintInvertsAlternation | src/core/input_descriptor.rs:620-637 | the names of an alternation pattern are read back exactly when the first does not open and the last does not close with a parenthesis |
| TypeHints.SplitInvertsJoin | src/core/input_descriptor.rs:632-636 | splitting undoes joining for names free of the separator |
| TypeHints.JoinInvertsSplit | src/core/input_descriptor.rs:632-636 | joining undoes splitting for every string |
| PresentationDefinitions.LastDescriptorWins | src/core/presentation_definition.rs:72-77 | the descriptor map has exactly the ids that occur and for each the last descriptor that carries it |
| PresentationDefinitions.CredentialMatchIff | src/core/presentation_definition.rs:221-250 | `is_credential_match` holds exactly when every filtered field, of any descriptor, that does not say `optional: true` has a path that selects a value its filter validates |
| PresentationDefinitions.ConstraintMatchVersusCredentialMatch | src/core/presentation_definition.rs:221-250 | matching every descriptor's constraints is `is_credential_match` together with a value for every field that is neither filtered nor optional |
| DefinitionForms.ConstraintsReadBackIff | src/core/input_descriptor.rs:192-199 | constraints are read back from their own JSON form exactly when they have a field and every field reads back; without fields they are refused |
| DefinitionForms.DefinitionReadsBackIff | src/core/presentation_definition.rs:25-37 | a definition is read back from its own JSON form exactly when every descriptor has a constraint field and its fields, formats and requirements read back; with one descriptor without fields it is refused |
| DecodedInputs.InputList.Push | src/core/presentation_submission.rs:340-346 | one input is appended to the vector and nothing else changes |
| DecodedInputs.GroupByInputDescriptor | src/core/presentation_submission.rs:463-475 | the loop of entry and push groups the given positions by the ids found there, each bucket in order |
| DecodedInputs.IndicesOfMeaning | src/core/presentation_submission.rs:469-472 | a bucket lists, increasing, exactly the positions paired with its id |
| InputForests.FlattenConcat | src/core/presentation_submission.rs:97-100 | laying out one forest after another is laying out both, the second from where the first ends |
| InputForests.RootsInRange | src/core/presentation_submission.rs:301-350 | the positions returned lie in the appended segment and increase |
| InputForests.FlattenShift | src/core/presentation_submission.rs:266-351 | a layout depends on its starting position only by a uniform shift of its links |
| InputForests.LinksAreParents | src/core/presentation_submission.rs:338-346 | the links stored in a list are exactly the parent relation of the forest behind it |
| InputForests.LayoutIsForest | src/core/presentation_submission.rs:478-499 | links point backwards, no input is listed by two others, and the inputs nobody lists are exactly the roots |
| InputForests.ReadBack | src/core/presentation_submission.rs:238-247 | following the links from the returned positions gives the forest back, whatever else the list holds |
| DescriptorMaps.FindInputsWith | src/core/presentation_submission.rs:266-351 | from any starting list, with or without an error, the traversal appends exactly the layout of the specified forest, changes nothing before it, returns the root positions or the specified error, and makes the specified number of decoder calls |
| DescriptorMaps.FindInputs | src/core/presentation_submission.rs:248-257 | the same for the public entry point, which builds the descriptor map itself |
| DescriptorMaps.FindItem | src/core/presentation_submission.rs:301-348 | one item appends its tree, or nothing when it does not match or nothing nested in it does, or what was appended before its error |
| DescriptorMaps.ErrorEndsTraversal | src/core/presentation_submission.rs:301-327 | items after a failing one change nothing |
| SelectionSpec.LookupMeaning | src/core/presentation_submission.rs:276-299 | the lookups succeed exactly when the id is defined and the descriptor's formats, or else the definition's, allow the format; the constraint found is theirs |
| SelectionSpec.DecodeAndMatchMeaning | src/core/presentation_submission.rs:302-313 | an item passes this stage without error exactly when it decodes and has the JSON its constraints need, and matches exactly when every field that does not say `optional: true` has a path that selects a value its filter validates |
| SelectionSpec.TraversalMeetsSpec | src/core/presentation_submission.rs:266-351 | a run ends without error exactly when every selected item at every level is clean, and then yields the trees of exactly the acceptable items, in order |
| SelectionSpec.ErrorIsReported | src/core/presentation_submission.rs:266-327 | a run ends with an error exactly when it is that of the lookup that fails first, or else of the first item that is not clean: its decoding error, the JSON it lacks, or the error of what is nested in it |
| SelectionSpec.TraversalMirrors | src/core/presentation_submission.rs:315-346 | the trees follow the nesting of the descriptor map: children exist exactly where a nested map does |
| SelectionSpec.NestedIndexHasOneKey | src/core/presentation_submission.rs:315-345 | `nested` has exactly the nested descriptor's id as key, with the positions of all children, or no key |
| TraversalBounds.TraversalIsBounded | src/core/presentation_submission.rs:301-348 | if the run selects at most k items at a time, a map nested n deep appends at most as many inputs as decoder calls, at most k + k^2 + ... + k^n of these, and returns at most k positions |
| TraversalBounds.WidestIsLeastBound | src/core/presentation_submission.rs:266-351 | every run has such a k: the least is its largest selection, on the values it meets |
| TraversalBounds.BoundIsReached | src/core/presentation_submission.rs:301-348 | for every k and n there is a run that appends exactly k + k^2 + ... + k^n inputs |
| TraversalBounds.InputsWithinCalls | src/core/presentation_submission.rs:301-346 | every input has cost a decoder call of its own, also in runs that fail |
| SubmissionRequirements.ValidateGroup | src/core/presentation_definition.rs:304-374 | without a pick a group is accepted exactly when every descriptor that lists it at any position has been submitted, with one when the number of inputs of such descriptors is within `min`, `max` and `count`; it is refused with the error of the first bound broken and the number found, or of some missing descriptor |
| SubmissionRequirements.LeafMeaning | src/core/presentation_definition.rs:304-374 | every leaf of a requirement tree, at any depth, is judged so |
| SubmissionRequirements.Validate | src/core/presentation_definition.rs:377-407 | a requirement tree of any depth is accepted exactly when every `from` leaf is satisfied on its own; otherwise the first unsatisfied leaf is reported |
| SubmissionRequirements.ValidateMatching | src/core/presentation_submission.rs:141-169 | the whole definition is accepted exactly when its leaves, or without requirements all its descriptors, are satisfied; otherwise the first failure in order is reported |
| SubmissionRequirements.OnlyLeavesMatter | src/core/presentation_definition.rs:377-407 | order, repetition and nesting of requirements do not change the verdict |
| SubmissionRequirements.PickOverNestedNeedsAll | src/core/presentation_definition.rs:394-403 | a pick over nested requirements asks for every one of them whatever its bounds |
| SubmissionRequirements.NestedPickAgreesIff | src/core/presentation_definition.rs:394-403 | over nested requirements on which they agree, code and standard agree on a pick exactly when the number met is within its bounds just if it is the number of all |
| SubmissionRequirements.RulesKeptWherePicksMeanAll | src/core/presentation_definition.rs:377-407 | where the bounds of every nested pick allow all and no fewer, the code follows the standard's rules on the whole tree, for every definition and input |
| SubmissionRequirements.OtherPicksAreBroken | src/core/presentation_definition.rs:394-403 | for any other bounds over n requirements there are n requirements and an input on which code and standard differ |
| SubmissionRequirements.PickOneOfTwoIsRefused | src/core/presentation_definition.rs:394-403 | a pick of one of two groups, one of them met: the standard accepts it and the code refuses |
| PresentationSubmissions.FindInputsOf | src/core/presentation_submission.rs:91-114 | all entries are processed into one list from the start, the first error is returned, and the index is the inverse index of the list |
| PresentationSubmissions.IndexInputs | src/core/presentation_submission.rs:102-108 | the loop over the inputs computes the inverse index |
| PresentationSubmissions.FindAndValidateInputs | src/core/presentation_submission.rs:118-127 | a submission is accepted exactly when every entry is clean and the ids selected meet the definition; on acceptance the inputs and index returned satisfy it |
| PresentationSubmissions.AllMeetSpec | src/core/presentation_submission.rs:97-100 | a submission is processed without error exactly when each entry is on its own, and then holds the ids each selects |
| PresentationSubmissions.IndexIsLinearScan | src/core/presentation_submission.rs:102-108 | the index's keys are the ids that occur and each bucket is the non-empty increasing list of exactly the positions with its id |
| PresentationSubmissions.VerdictByNames | src/core/presentation_submission.rs:151-165 | the presence tests by key and by non-empty bucket agree, so the verdict is a function of the ids of the inputs |
| SubmissionTheorems.EmptyAnswerAppendsNothing | src/core/presentation_submission.rs:329-331 | a nested run that returns no position has appended nothing, so skipping it drops nothing |
| SubmissionTheorems.InputsFormTheAcceptedForest | src/core/presentation_submission.rs:91-114 | the inputs of a submission form a forest and reading it from its roots gives exactly the trees of the accepted items |
| SubmissionTheorems.RunsAreIndependent | src/core/presentation_submission.rs:97-100 | processing all entries into one list is concatenating their independent runs, shifted; its roots are what the top-level calls return |
| SubmissionTheorems.TraversalStopsAtFirstError | src/core/presentation_submission.rs:301-348 | a failing run stops at the first item that is not clean, having kept the accepted items before it |
| SubmissionTheorems.FirstBadEntryIsReported | src/core/presentation_submission.rs:97-100 | a submission is refused in processing with an error exactly when it is that of its first entry that is not clean |
| SubmissionTheorems.SelectionIffSourced | src/core/presentation_submission.rs:301-348 | the forest holds an input exactly when some accepted item, here or nested, is its source |
| SubmissionTheorems.InputsIffSourced | src/core/presentation_submission.rs:91-127 | on success the list holds an input of an id, format and value exactly when an accepted item of some entry, or one nested in it, is its source |
| VerdictTheorems.AcceptedWithoutRequirements | src/core/presentation_submission.rs:151-165 | without requirements acceptance is: every entry clean and every defined descriptor supplied by an item that decodes, satisfies its constraints and has its nesting |
| VerdictTheorems.VerdictIgnoresOrder | src/core/presentation_submission.rs:118-127 | permuting the descriptor map never changes acceptance |
| VerdictTheorems.AppendingEntries | src/core/presentation_submission.rs:118-127 | an accepted submission stays accepted after appending clean entries exactly when every `max` is still kept and no group with a `count` grows |
| VerdictTheorems.AppendingIsMonotone | src/core/presentation_definition.rs:323-361 | without `max` and `count`, appending clean entries never loses acceptance |
| VerdictTheorems.AppendingCanReject | src/core/presentation_definition.rs:342-350 | with a `max`, a clean entry given twice is rejected where once it is accepted |
| VerdictTheorems.PickCountsInputs | src/core/presentation_definition.rs:311-330 | a pick's count is the sum of the group's bucket lengths, at least the number of distinct descriptors submitted, and equal to it exactly when no bucket has two |
| Objects.UntypedObject.Insert | src/core/object/mod.rs:53-58 | a parameter with a JSON form replaces its entry, one without leaves the object alone; the previous entry is returned |
| Objects.UntypedObject.Remove | src/core/object/mod.rs:43-45 | the entry is removed and returned, all others stay |
| Objects.TextOrValueSurvivesForm | src/utils.rs:97-105 | a parser that accepts text as well as a value cannot tell that its entry was flattened to text |
| Objects.FormRoundTrip | src/core/object/mod.rs:61-73 | encoding and decoding the flattened object gives every entry back as a string |
| ClientIds.FullIdRoundTrip | src/core/authorization_request/parameters.rs:38-68 | parsing the full id of any client id gives it back, colons included |
| ClientIds.PrefixNamed | src/core/authorization_request/parameters.rs:22-29 | the eight prefixes and their names, and no other |
| ClientIds.ClientIdParsesIff | src/core/authorization_request/parameters.rs:38-68 | a string parses as a client id exactly when it is its full id, or has no colon and names a pre-registered client |
| ClientIds.NormalisationIsIdempotent | src/core/authorization_request/parameters.rs:38-68 | writing out the full id is idempotent and changes nothing exactly on accepted strings with a colon |
| RequestParameters.ModeTexts | src/core/authorization_request/parameters.rs:585-641 | the six response modes and their texts, each read back from the other, and any other text kept |
| RequestParameters.OriginsParseIff | src/core/authorization_request/parameters.rs:894-909 | expected origins are read exactly from a non-empty list of strings each of which parses |
| RequestParameters.PrefixesParseIff | src/core/metadata/parameters/wallet.rs:95-110 | a list of prefixes is read exactly from the list of their names |
| Dcql.ValidateDcql | src/verifier/request_builder.rs:213-252 | accepted exactly when credential ids are distinct and each credential with claim sets has claims, all with ids, all distinct; otherwise the first problem is reported |
| Dcql.ValidateClaimIds | src/verifier/request_builder.rs:227-241 | the claim id loop reports a missing id before a repeated one and accepts exactly when neither occurs |
| Dcql.SizeTellsDistinct | src/verifier/request_builder.rs:214-219 | comparing the size of the set with the length of the list is testing for repetition |
| AuthorizationRequests.ReturnParsesIff | src/core/authorization_request/mod.rs:410-486 | a return URI and mode are accepted exactly when the mode's own parameter is present, the other absent, and the mode supported |
| AuthorizationRequests.QueryParsesIff | src/core/authorization_request/mod.rs:490-518 | a query is accepted exactly when one and only one of the three parameters is present and it parses |
| AuthorizationRequests.QueryParsesTo | src/core/authorization_request/mod.rs:490-518 | the query read is that of the one parameter present |
| AuthorizationRequests.ReturnRefusal | src/core/authorization_request/mod.rs:410-486 | which error refuses a return URI, mode by mode |
| AuthorizationRequests.RequestRefusal | src/core/authorization_request/mod.rs:401-534 | an object that is no request is refused for the first parameter that fails, in the order client id, return, response type, query, nonce, client metadata |
| AuthorizationRequests.RequestParsesIff | src/core/authorization_request/mod.rs:401-534 | an object is a request exactly when client id, response type, nonce and client metadata parse, the one return parameter of its mode is there, and exactly one query parameter is there and parses |
| AuthorizationRequests.RequestSurvivesForm | src/core/authorization_request/mod.rs:398-535 | a request parses from its stringified entries into the same fields, but for expected origins |
| AuthorizationRequests.PlainUrlRoundTrip | src/core/authorization_request/mod.rs:178-253 | the wallet reads a plain request back from its URL field by field |
| AuthorizationRequests.PlainUrlRoundTripExactly | src/core/authorization_request/mod.rs:234-250 | it does so exactly when the request has no `request` and no `request_uri` parameter |
| AuthorizationRequests.ReadElsewhere | src/core/authorization_request/mod.rs:178-213 | read at another endpoint than it was written for, a URL is accepted exactly when authority and path are the same, and otherwise refused for the first that differs |
| AuthorizationRequests.SignedParsesIff | src/core/authorization_request/mod.rs:63-94 | a form is a signed request by value exactly when it holds a client id and a JWT and nothing else, and by reference when it holds a client id, a URL and a known method or none |
| AuthorizationRequests.ReservedReading | src/core/authorization_request/mod.rs:63-94 | a plain request with a reserved parameter is read as a signed one by reference where `request_uri` parses, and refused otherwise, never as one by value |
| AuthorizationRequests.RequestParameterBreaksUrl | src/core/authorization_request/mod.rs:234-250 | adding `request` to any request without `request_uri` leaves it a request and makes its URL unreadable |
| AuthorizationRequests.SignedUrlRoundTrip | src/core/authorization_request/mod.rs:576-581 | a signed request, by value or by reference, is read back from its URL |
| AuthorizationRequests.SignedBodyRoundTrip | src/core/authorization_request/mod.rs:390-396 | the entries signed are those of the request with the client id in full, and parse into that request |
| WalletMetadatas.WalletMetadata.AddClientIdPrefixesSupported | src/core/metadata/mod.rs:101-114 | the object's list grows by the prefixes, the cached list stays; fails exactly on a malformed entry |
| WalletMetadatas.WalletMetadata.AddRequestObjectSigningAlg | src/core/metadata/mod.rs:79-94 | the object's list grows by the algorithm; fails exactly on a malformed entry |
| WalletMetadatas.WalletMetadata.SetVpFormatsSupported | src/core/metadata/mod.rs:73-75 | only the cached formats change |
| WalletMetadatas.ParsedMetadata | src/core/metadata/mod.rs:202-229 | metadata are read exactly when endpoint, formats and response types parse; prefixes, algorithms and syntax types fall back to their defaults when missing or malformed |
| WalletMetadatas.RunKeepsInStep | src/core/metadata/mod.rs:73-114 | over any run of the mutators the object's lists of prefixes and of algorithms are the cached ones followed by all added, in order; the cached lists never move; the formats are those set last |
| WalletMetadatas.ReparseAfterRun | src/core/metadata/mod.rs:192-229 | writing out and parsing after any run succeeds exactly when the formats last set parse from their JSON form, which are then the formats read; both prefix lists then agree and endpoint and types are kept |
| WalletMetadatas.ReparseAlgs | src/core/metadata/mod.rs:79-94 | the algorithms then cached are the first ones followed by all added, or the first ones where the entry was malformed |
| WalletMetadatas.MetadataUrlRoundTrip | src/core/metadata/mod.rs:245-275 | decoding URL-encoded metadata is parsing the entries it was written out as |
| WalletMetadatas.MetadataFromForm | src/core/metadata/mod.rs:245-275 | metadata posted with bare strings, as requests are, are read as well if no string among them is JSON text |
| ClaimFormats.PayloadContainsIff | src/core/credential_format/mod.rs:204-240 | a payload contains another exactly when both are of one kind and share a string, for SD-JWT one in each of the two pairs of lists, or are the same raw JSON |
| RequestVerification.FormatsAcceptedIff | src/core/authorization_request/verification/mod.rs:316-342 | the format check accepts exactly when no readable formats are declared or some designation is listed on both sides with payloads that share |
| RequestVerification.WalletTypeCheck | src/core/authorization_request/verification/mod.rs:266-313 | the wallet's response type check accepts exactly supported types with, for id tokens, supported subject syntax types only |
| RequestVerification.WalletAcceptsAfterRun | src/core/authorization_request/verification/mod.rs:233-264 | after any run of the mutators the wallet accepts exactly on a prefix cached at first or added since, a response type accepted at first, and client metadata that parse and, where formats are declared, share one with those set last |
| RequestVerification.PlainAcceptedIff | src/core/authorization_request/verification/mod.rs:172-223 | any plain request is accepted exactly when the hook accepts it, or it has no return URI and a Digital Credentials API mode, and the metadata accept it |
| RequestVerification.SignedAcceptedIff | src/core/authorization_request/mod.rs:583-605 | any signed request is resolved exactly when its JWT decodes to a request that hook and metadata accept, its wallet nonce, if there is one, was issued, and the client id outside is the full client id inside |
| RequestVerification.SignedRefusal | src/core/authorization_request/mod.rs:583-605 | a refusal carries the error of the first of these that fails |
| RequestBuilders.AddressedIff | src/verifier/request_builder.rs:157-211 | mode by mode: an endpoint is put in as the mode's own return parameter; with the Digital Credentials API both return parameters go, a plain request loses its client id, and a signed one needs expected origins that parse |
| RequestBuilders.RequestBuilder.BuildHelper | src/verifier/request_builder.rs:157-211 | the response address is settled by the mode, or the build refused with the parameters unchanged |
| RequestBuilders.RequestBuilder.ValidateResponseTypeFor | src/verifier/request_builder.rs:272-315 | accepts exactly what the wallet's response type check accepts on the same entries |
| RequestBuilders.RequestBuilder.InsertQuery | src/verifier/request_builder.rs:82-103 | exactly one valid query goes in beside the client id |
| RequestBuilders.RequestBuilder.Build | src/verifier/request_builder.rs:77-155 | succeeds exactly when every check does, answers with the URL of the final parameters, and a refusal carries the error of the first check that fails |
| BuildConditions.SucceedsIff | src/verifier/request_builder.rs:77-155 | a build succeeds exactly under conditions on the attempt alone: one valid query that parses from its own form beside no other, a response type and prefix the wallet accepts, its endpoint, a supported mode with its endpoint or origins and without another mode's return parameter, nonce, client metadata, and a signer that signs |
| BuildConditions.BuiltRequest | src/verifier/request_builder.rs:113-118 | every field of the request of a successful build, with exactly the expected origins of the parameters in a Digital Credentials API mode and none in another |
| BuildConditions.SentRequest | src/verifier/request_builder.rs:115-153 | what is sent: plain, the URL of the request; signed, its JWT and a URL that reads as the full client id with that JWT, or with the reference asked for |
| BuildConditions.OriginsDecide | src/verifier/request_builder.rs:189-207 | a signed attempt for the Digital Credentials API is refused for missing origins, for malformed ones, or gets as far as its request, without return parameters |
| RequestAgreement.PlainDcApiNeverBuilds | src/verifier/request_builder.rs:189-193 | no plain build in a Digital Credentials API mode succeeds |
| RequestAgreement.UnconstrainedDescriptorNeverBuilds | src/verifier/request_builder.rs:99-116 | no build for a definition with a descriptor without constraint fields succeeds |
| RequestAgreement.PlainBuildRoundTrip | src/verifier/request_builder.rs:113-131 | a plain request the builder returns is read back with the client's id, the verifier's endpoint as return URI, and the mode, type, nonce and client metadata of the parameters; and with the query asked for exactly when that query reads back from its own JSON form |
| RequestAgreement.ViewsAgreeAfterRun | src/core/metadata/mod.rs:96-131 | after any run of the mutators every cached prefix is listed by the object and the endpoints agree |
| RequestAgreement.PrefixChecksAgreeIff | src/core/metadata/mod.rs:101-131 | after any run the wallet's list and the cached list agree on a prefix exactly when it was not added or was cached before |
| RequestAgreement.AddedPrefixIsStillRefused | src/core/metadata/mod.rs:127-131 | an added prefix is known to the wallet's list and still refused by the builder |
| RequestAgreement.PlainRequestIsAccepted | src/core/authorization_request/verification/mod.rs:172-223 | the wallet accepts the plain request the builder made for its metadata exactly when its hook does and the VP formats overlap |
| RequestAgreement.SignedRequestIsAccepted | src/core/authorization_request/mod.rs:583-605 | the signed request the builder made is read back from its URL, its two client ids agree, and the wallet accepts it exactly when hook, VP formats and nonce do |
| RequestAgreement.SomeRequestIsAccepted | src/verifier/request_builder.rs:77-155 | the assumptions of the agreement theorems can be met: if one constraint field and no formats read back from their JSON forms, a concrete plain build succeeds against concrete metadata, its URL is read, and the wallet accepts exactly when its hook does |
| RequestAgreement.SomeReservedIsRefused | src/core/authorization_request/mod.rs:234-250 | a concrete request with a `request` parameter whose URL cannot be read |
| RequestAgreement.SomePrefixIsAdded | src/core/metadata/mod.rs:101-114 | a concrete run after which the object lists a prefix that the cached list does not have |

## Left out

- HTTP, asynchrony, JWT signatures, DID and X.509 checks: library calls or I/O; the wallet's verification is an arbitrary verdict, and a JWT is taken to decode to some object, in `RequestAgreement.SignedRequestIsAccepted` to the one signed.
- JSONPath, JSON Schema, and the serde conversions of constraint fields, requirements, formats and DCQL queries: arbitrary functions. JSON text, forms and URLs: functions under the law that parsing undoes printing; parsing JSON text into a type is taken to be parsing it into a value first.
- The random id of a requested field, and setters and getters without branches.
- Error messages and error sources: errors keep their kind and the values they carry, not their wording.
- Hash map iteration order: a missing descriptor of a group is any one of those missing.
- Integer width: counts and positions are unbounded, where the source uses `usize`.
- The cached metadata fields no modelled check reads (scopes, id token types and algorithms), and metadata not made by parsing (`WalletMetadata::new`).
- Mutable access to the metadata's object through `DerefMut`: only the named mutators are in the runs.
- The names, purposes and `limit_disclosure` of definitions, and reading a definition from anything but a JSON object.
- AuthorizationRequests.RequestSurvivesForm: does not keep expected origins, an array whose parser accepts no text; a request with them is read back without.
- Response encoding (src/core/response): mostly serde; a full round trip does not hold there.
- Ready-made decoders such as `NoClaimsDecoder`: the traversal is modelled for every decoder.
- Decoders that keep state or answer differently on the same item: a decoder is a function here.
- Loop bodies and inner loops of the source carry names of their own where their proofs are kept apart: `FindItem`, `IndexInputs`, `ValidateEach`, `ValidateClaimIds`, `InsertQuery`, `Prepare`, `Finish`.
