# HIT client core of mturk, modelled in Dafny

This project models `model/hit.js` of the mturk client library. That file is the data-access layer for one entity of a crowdsourcing marketplace, the Human Intelligence Task (HIT). Around its remote calls it holds a small amount of deterministic logic, and the model covers that logic:

- **The HIT record.** The constructor sets only truthy arguments. `validate` registers its rules. `populateFromResponse` copies response fields and parses the requester annotation (module `HitRecord`). The rule predicates `notNull`, `isAlphanumeric`, `isInt` and `len` are in module `Validator`.
- **Request assembly.** `create`, `search`, `getReviewable` and `getAssignments` each build a flat parameter bag in which a key exists only when it is set (modules `Requests` and `Operations`).
- **Post-processing of paginated responses.** Three pagination nodes are checked in a fixed order, and the first missing one is reported as a one-element error list. The list-shaped `HIT` / `Assignment` field is normalized to a list. The callback tuple is then built (modules `Listing` and `Operations`).

No remote call is made. The gateway's answer is a parameter instead, `Reply = Failed(detail) | Responded(tree)`. Each operation returns a `Call`. A `Call` holds the request the operation issued (`None` when it issued none) and the arguments its callback received (`Outcome`). Three functions of the surrounding code are also parameters: `JSON.parse`, `parseInt` and the sort-key translation `Base.objectKeyToResponseKey`. The model treats them as arbitrary functions. `JSON.parse` and `parseInt` return `Option`, where `None` stands for a thrown exception or `NaN`.

Modelling conventions:
- `Option.None` stands for `undefined`. A request key assigned `undefined` is absent from the bag; the gateway (`lib/request`, not part of this model) is taken to drop such keys.
- Option values are `Scalar = Text | Number`. This keeps JavaScript truthiness: `""` and `0` are falsy. Response trees are `Node = Leaf | Object | Array`.
- `Base.nodeExists` (not part of this model) is modelled as key presence along the path. The sparse literal `[, 'NumResults']` in `search` is read as the intended `['NumResults']`.
- The validator (`Base.valid` and the rule checker, not part of this model) renders `undefined` as the empty string. It renders an integer as JavaScript's `Number.prototype.toString` does: in decimal below 10^21 in magnitude, and in exponent form (`1e+21`) from there on, which the integer pattern rejects. String lengths are counted in UTF-16 code units, as JavaScript's `length` counts them: a character above U+FFFF counts twice. Every rule of a chain is evaluated, and each violated rule adds its message once. So an absent hitTypeId reports its message twice: once for `notNull` and once for `isAlphanumeric`.
- `Base.populateFromResponse` (not part of this model) is modelled as copying the four mapped fields (HITId, HITTypeId, HITStatus, HITReviewStatus) and the RequesterAnnotation field under its own name. It copies only a leaf's text, and skips absent fields.

Source quirks kept as written:
- `getReviewable` looks for TotalNumResults on the outer response rather than on `Result` (`ReviewableRefusesCompleteResult`, `ReviewableAcceptsMisplacedTotal`).
- `getAssignments` sends the sortProperty value as SortDirection (`AssignmentSortDirectionIgnored`).
- The third `getAssignments` error message names NumResults.
- `getAssignments` orders its tuple (numResults, pageNumber, totalNumResults, assignments).
- Transport errors reach `create`'s callback as a one-element list, but reach the listing operations' callbacks bare (`CallbackError`).

## Model

| member | source | states |
|---|---|---|
| HitRecord.NewHit | model/hit.js:8-15 | errors start empty; id and statuses are unset; each attribute is set exactly when its argument is truthy, so a maxAssignments of 0 or an empty string stays unset |
| HitRecord.RequiredRulesReport | model/hit.js:24-27 | the required-attribute rules report only their own four messages, each exactly when its rule is violated |
| HitRecord.OptionalRulesReport | model/hit.js:30-31 | the optional-attribute rules report only the maxAssignments and annotation messages, each exactly when its rule is violated |
| HitRecord.ValidateReports | model/hit.js:23-32 | each message is reported exactly when its rule is violated: a missing or non-alphanumeric hitTypeId; a lifetime that is missing (presence message) or missing or of magnitude 10^21 or more (integer message); a missing question; a lifetime below 30; a lifetime above 31536000; a truthy maxAssignments of magnitude 10^21 or more; a string annotation longer than 255 UTF-16 code units |
| HitRecord.ValidateEmptyIffWellFormed | model/hit.js:23-32 | validation reports nothing exactly when hitTypeId is alphanumeric, the question is non-empty, the lifetime lies in [30, 31536000], a set maxAssignments is below 10^21 in magnitude and a string annotation has at most 255 UTF-16 code units |
| HitRecord.HitTypeIdMessageCount | model/hit.js:24 | the hitTypeId message appears twice for an absent or empty id, once for a non-alphanumeric one, and not at all otherwise |
| Validator.IntSubjectIsInt | model/hit.js:26 | an integer attribute passes `isInt` exactly when it is present and below 10^21 in magnitude: every such integer's decimal form matches the integer pattern, and the exponent form of a larger one does not |
| Validator.Utf16LengthBounds | model/hit.js:31 | the length `len` checks lies between the character count and twice it, and equals the character count exactly when no character lies above U+FFFF |
| HitRecord.CopyFieldsKeepsClientFields | model/hit.js:35-40 | the response field copy never changes question, lifetime, maxAssignments, annotation or errors |
| HitRecord.CopyFieldsUnmapped | model/hit.js:35-40 | an attribute the field map does not name keeps its value |
| HitRecord.CopyFieldsMapped | model/hit.js:35-40 | when each attribute is named at most once, a mapped attribute takes the response's value if present and keeps its old value otherwise |
| HitRecord.PopulateFromResponse | model/hit.js:34-51 | id and the statuses come from the response when present and stay as they were otherwise; question, lifetime, maxAssignments and errors are unchanged; a RequesterAnnotation in the response replaces the record's annotation; the resulting annotation string, when non-empty, becomes its parse, or null when it does not parse; an empty one stays the empty string; with no annotation in the response a non-string annotation is left alone; it never fails |
| HitRecord.PopulateKeepsMaxAssignments | model/hit.js:34-51 | a record built with maxAssignments 5 and populated from HITId abc123 and HITStatus Assignable has that id and status and still has maxAssignments 5 |
| Operations.CreateParams | model/hit.js:58-65 | the CreateHIT bag holds HITTypeId, Question and LifetimeInSeconds from the record, MaxAssignments only when it is truthy, RequesterAnnotation only when it is a non-empty string, and no other key |
| Operations.CreateCall | model/hit.js:53-73 | no request is issued exactly when the record is not well-formed, and then the callback gets the validation messages, in order, each as an invalid-argument error; otherwise the CreateHIT request is issued, a gateway error comes back as a one-element list, and a response populates the record from its Result |
| Operations.Create | model/hit.js:87-97 | a request is issued exactly when the record built from the arguments is well-formed; it is a CreateHIT post; the HIT handed back carries the caller's question and lifetime, and the caller's maxAssignments exactly when it was truthy (none otherwise), and the response's HITId |
| Operations.CreateRefusesLifetimeOutOfRange | model/hit.js:87-97 | creating with a lifetime outside [30, 31536000] issues no request for any reply, and reports the violated bound, except that a lifetime of 0 is dropped by the constructor and reported as missing instead |
| Operations.CreateRefusesMissingFields | model/hit.js:87-97 | creating without a hitTypeId or a question issues no request for any reply, and reports the missing attribute |
| Operations.CreateReturnsWhatWasSent | model/hit.js:58-72 | after a successful creation, the question, lifetime and maxAssignments sent in the request are those of the returned record, and its id is the response's HITId |
| Operations.GetHit | model/hit.js:200-213 | GetHIT is requested with exactly HITId; the call fails exactly when the gateway fails, with that error passed bare; otherwise the record's id and status come from Result |
| Operations.GetParsesResponseAnnotation | model/hit.js:41-50 | a fetched HIT has no annotation when the response carries none, the parsed value when the response's annotation string parses, and null when a non-empty one does not |
| Requests.SearchParams | model/hit.js:153-158 | SortDirection, PageSize and PageNumber are in the bag exactly when defined, with the caller's values; SortProperty is there only when truthy, translated to its response key; no other key |
| Requests.ReviewableParams | model/hit.js:230-237 | HitTypeId, Status, SortDirection, PageSize and PageNumber are in the bag exactly when defined; SortProperty is there only when truthy, translated; no other key |
| Requests.AssignmentParams | model/hit.js:287-295 | HITId is in the bag whenever the id is defined; AssignmentStatus, SortProperty, PageSize and PageNumber are there only when truthy; SortDirection is there when sortDirection is truthy and carries the sortProperty value; no other key |
| Requests.AssignmentSortDirectionIgnored | model/hit.js:293 | a requested sort direction of Descending with sort property SubmitTime sends SortDirection SubmitTime |
| Listing.FirstMissing | model/hit.js:169-176 | the index returned is that of a failing check with every earlier check passing; no index means every check passes |
| Listing.FirstMissingOfThree | model/hit.js:169-176 | of three checks run in order, the first failing one is the one reported |
| Listing.NormalizationUndoesElision | model/hit.js:179-187 | normalizing the field the service renders for a list of records (absent for none, the record itself for one, an array otherwise) gives back that list, for both HIT and Assignment |
| Listing.NormalizationsAgree | model/hit.js:310-315 | the HIT and Assignment normalizations agree on every field value except an empty text node, which HIT treats as falsy and Assignment keeps as one entry |
| Listing.HitsFrom | model/hit.js:182-186 | one HIT per entry, in order, each a fresh record populated from its entry |
| Listing.AssignmentsFrom | model/hit.js:317-321 | one Assignment per entry, in order, each built from its entry |
| Operations.Search | model/hit.js:151-191 | SearchHITs is requested with the search bag; a gateway error is passed to the callback bare |
| Operations.SearchChecksInOrder | model/hit.js:169-176 | NumResults, TotalNumResults and PageNumber are checked under Result in that order; the first missing one is the only error, as a one-element list; the call succeeds exactly when all three exist |
| Operations.SearchSuccess | model/hit.js:170-189 | when all three nodes exist, search succeeds and returns the three counters parsed from Result and one HIT per entry: none for a falsy field, one for a single record, and one per element, in order, for an array |
| Operations.GetReviewable | model/hit.js:228-270 | GetReviewableHITs is requested with the reviewable bag; a gateway error is passed to the callback bare |
| Operations.ReviewableChecksInOrder | model/hit.js:247-254 | NumResults under Result, TotalNumResults on the outer response, and PageNumber under Result are checked in that order; only the first missing one is reported, as a one-element list; the call succeeds exactly when all three exist |
| Operations.ReviewableSuccess | model/hit.js:248-267 | when the three checks pass the call succeeds; the counters are parsed from Result (TotalNumResults too, although it was looked for outside Result), and the HITs are built from Result's HIT field as in search |
| Operations.ReviewableRefusesCompleteResult | model/hit.js:250 | a response whose Result carries all three counters, with nothing outside Result, is refused with the TotalNumResults error |
| Operations.ReviewableAcceptsMisplacedTotal | model/hit.js:250-251 | a response with TotalNumResults only outside Result is accepted, and its total is unparsed (NaN) |
| Operations.GetAssignments | model/hit.js:286-325 | GetAssignmentsForHIT is requested with the assignments bag; a gateway error is passed to the callback bare |
| Operations.AssignmentsChecksInOrder | model/hit.js:301-308 | NumResults, PageNumber and TotalNumResults are checked under Result in that order; only the first missing one is reported, and a missing TotalNumResults is reported with the NumResults message; the call succeeds exactly when all three exist |
| Operations.AssignmentsSuccess | model/hit.js:302-323 | success returns (numResults, pageNumber, totalNumResults, assignments) in that order, parsed from Result, with no assignments for an undefined field, one for a single record, and one per element, in order, for an array |
| Operations.HitGetAssignments | model/hit.js:339-341 | the instance operation is the free operation applied to the record's id, which is sent as HITId |

## Left out

- The gateway `lib/request` (transport, signing, HTTP) is not part of this model. Its reply is an input, and a key whose value is `undefined` is assumed to be dropped from the request.
- `Base` (`valid`, `nodeExists`, the generic `populateFromResponse`, `objectKeyToResponseKey`) and `Assignment` are not part of this model. Their modelled behaviour is listed above; an Assignment is represented by the response subtree it is populated from.
- `JSON.parse`, `parseInt` and the sort-key translation are arbitrary function parameters. Their own semantics are not modelled.
- `expire`, `dispose` and `disable` (model/hit.js:108-138) only forward a HITId to the gateway, so there is no logic to state about them.
- The `console.log` diagnostic, the callback control flow and the raw `response` passed as the callbacks' last argument are left out. So is `HIT.prototype.errors`, which the constructor's `errors` array shadows.
- `null` option values and JavaScript type coercion are left out. This covers non-numeric or fractional lifetimes and maxAssignments, `<` and `>` on strings, and `parseInt` of an array. The model types lifetime and maxAssignments as integers, so the maxAssignments `isInt` rule fails only from 10^21 in magnitude, where JavaScript switches to exponent form.
- HitRecord.PopulateFromResponse: an annotation that already holds a parsed value is left unchanged. The source would re-parse its string coercion, which does not happen on any path that builds a record once.
- HitRecord.ValidateReports: an annotation that already holds a parsed value is not length-checked. The source would check the length of its string coercion.
- Operations.CreateParams: an annotation that already holds a parsed value is not sent as RequesterAnnotation. The source would send the parsed object itself.
- HitRecord.PopulateFromResponse: of the response fields outside the field map, only RequesterAnnotation is copied. The generic copy in `Base` (not part of this model) may also copy Question, MaxAssignments, LifetimeInSeconds and other fields onto the record; the model keeps the record's own values for those.
- Rounding to 64-bit floats: the mantissa digits of an integer of magnitude 10^21 or more are its exact digits, not those of the nearest 64-bit float. Any exponent form fails `isInt`, so validation does not depend on them. Integers are not rounded to 64-bit floats anywhere else either.
- HitRecord.CopyFieldsMapped: only leaf text is copied into an attribute. An object or array under a mapped response field is skipped, not copied.
