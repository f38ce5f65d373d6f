/**
 * The operations of the HIT client: `create`, `get`, `search`,
 * `getReviewable`, `getAssignments` and the instance `getAssignments`. Each
 * takes the gateway's reply as an input and returns the request it issued
 * together with what its callback received.
 */
module Operations {
  import opened Wrappers
  import opened Values
  import opened Response
  import opened HitRecord
  import opened Requests
  import opened Listing

  // ---------------------------------------------------------------- create

  /** The messages of a failed validation, as the errors the callback receives. */
  function InvalidErrors(messages: seq<string>): (errs: seq<Error>)
    ensures |errs| == |messages|
    ensures forall i :: 0 <= i < |messages| ==> errs[i] == Invalid(messages[i])
  {
    seq(|messages|, i requires 0 <= i < |messages| => Invalid(messages[i]))
  }

  /** The annotation as sent: only its string form is. */
  function AnnotationValue(h: Hit): Option<Scalar> {
    if HasRawAnnotation(h) then Some(Text(h.requesterAnnotation.value.text)) else None
  }

  /**
   * The `CreateHIT` bag: HITTypeId, Question and LifetimeInSeconds from the
   * record; MaxAssignments and RequesterAnnotation only when set.
   */
  function CreateParams(h: Hit): (bag: Params)
    ensures bag.Keys <= {"HITTypeId", "Question", "LifetimeInSeconds", "MaxAssignments", "RequesterAnnotation"}
    ensures Entry(bag, "HITTypeId") == TextValue(h.hitTypeId)
    ensures Entry(bag, "Question") == TextValue(h.question)
    ensures Entry(bag, "LifetimeInSeconds") == NumberValue(h.lifeTimeInSeconds)
    ensures Entry(bag, "MaxAssignments") == if TruthyInt(h.maxAssignments) then NumberValue(h.maxAssignments) else None
    ensures Entry(bag, "RequesterAnnotation") == AnnotationValue(h)
  {
    var literal := Assign(Assign(Assign(map[], "HITTypeId", TextValue(h.hitTypeId)), "Question", TextValue(h.question)),
                          "LifetimeInSeconds", NumberValue(h.lifeTimeInSeconds));
    var bag := AssignIf(literal, TruthyInt(h.maxAssignments), "MaxAssignments", NumberValue(h.maxAssignments));
    AssignIf(bag, HasRawAnnotation(h), "RequesterAnnotation", AnnotationValue(h))
  }

  function CreateRequest(h: Hit): Request {
    Request(Service, "CreateHIT", Post, CreateParams(h), Some("HIT"))
  }

  /**
   * `HIT.prototype.create`: an invalid record answers with its validation
   * messages and issues no request; otherwise the record is sent, a gateway
   * error comes back as a one-element list, and a response populates the
   * record from its `Result`.
   */
  function CreateCall(h: Hit, reply: Reply, jsonParse: string -> Option<Node>): (c: Call<Hit>)
    ensures c.request.None? <==> !WellFormed(h)
    ensures !WellFormed(h) ==> c.outcome.Fail? && c.outcome.error.ErrorList? && |c.outcome.error.errors| > 0
    ensures !WellFormed(h) ==> c.outcome == Fail(ErrorList(InvalidErrors(Validate(h))))
    ensures WellFormed(h) ==> c.request == Some(CreateRequest(h))
    ensures WellFormed(h) && reply.Failed? ==> c.outcome == Fail(ErrorList([Transport(reply.detail)]))
    ensures WellFormed(h) && reply.Responded? ==>
      c.outcome == Done(PopulateFromResponse(h, ResultOf(reply.response), jsonParse))
  {
    ValidateEmptyIffWellFormed(h);
    var errors := Validate(h);
    if errors != [] then
      Call(None, Fail(ErrorList(InvalidErrors(errors))))
    else
      Call(Some(CreateRequest(h)),
           match reply
           case Failed(detail) => Fail(ErrorList([Transport(detail)]))
           case Responded(response) => Done(PopulateFromResponse(h, ResultOf(response), jsonParse)))
  }

  /**
   * `create(hitTypeId, question, lifeTimeInSeconds, options)`: build the
   * record, then create it. A request is issued exactly when the built
   * record is well-formed, and the HIT handed back carries the caller's
   * question and lifetime, and maxAssignments exactly when it was truthy.
   */
  function Create(hitTypeId: Option<string>, question: Option<string>, lifeTimeInSeconds: Option<int>,
                  maxAssignments: Option<int>, requesterAnnotation: Option<string>,
                  reply: Reply, jsonParse: string -> Option<Node>): (c: Call<Hit>)
    ensures c.request.None? <==>
      !WellFormed(NewHit(hitTypeId, question, lifeTimeInSeconds, maxAssignments, requesterAnnotation))
    ensures c.request.Some? ==> c.request.value.operation == "CreateHIT" && c.request.value.verb == Post
    ensures c.outcome.Done? ==> reply.Responded?
    ensures c.outcome.Done? ==>
      && c.outcome.value.question == question
      && c.outcome.value.lifeTimeInSeconds == lifeTimeInSeconds
      && (c.outcome.value.maxAssignments.Some? <==> TruthyInt(maxAssignments))
      && (TruthyInt(maxAssignments) ==> c.outcome.value.maxAssignments == maxAssignments)
      && c.outcome.value.id == LeafText(ResultOf(reply.response), "HITId")
  {
    CreateCall(NewHit(hitTypeId, question, lifeTimeInSeconds, maxAssignments, requesterAnnotation), reply, jsonParse)
  }

  /** A lifetime outside [30, 31536000] is refused with its bound error and no request, whatever the reply. */
  lemma CreateRefusesLifetimeOutOfRange(hitTypeId: Option<string>, question: Option<string>, lifeTimeInSeconds: int,
                                        maxAssignments: Option<int>, requesterAnnotation: Option<string>,
                                        reply: Reply, jsonParse: string -> Option<Node>)
    requires lifeTimeInSeconds < MinLifetime || lifeTimeInSeconds > MaxLifetime
    ensures var c := Create(hitTypeId, question, Some(lifeTimeInSeconds), maxAssignments, requesterAnnotation, reply, jsonParse);
            && c.request.None?
            && c.outcome.Fail?
            && (lifeTimeInSeconds < MinLifetime && lifeTimeInSeconds != 0 ==> Invalid(MsgLifetimeMin) in c.outcome.error.errors)
            && (lifeTimeInSeconds > MaxLifetime ==> Invalid(MsgLifetimeMax) in c.outcome.error.errors)
  {
    var h := NewHit(hitTypeId, question, Some(lifeTimeInSeconds), maxAssignments, requesterAnnotation);
    ValidateReports(h);
    var errs := Validate(h);
    if lifeTimeInSeconds < MinLifetime && lifeTimeInSeconds != 0 {
      var i :| 0 <= i < |errs| && errs[i] == MsgLifetimeMin;
      assert InvalidErrors(errs)[i] == Invalid(MsgLifetimeMin);
    }
    if lifeTimeInSeconds > MaxLifetime {
      var i :| 0 <= i < |errs| && errs[i] == MsgLifetimeMax;
      assert InvalidErrors(errs)[i] == Invalid(MsgLifetimeMax);
    }
  }

  /** A missing or empty hitTypeId or question is refused with its message and no request, whatever the reply. */
  lemma CreateRefusesMissingFields(hitTypeId: Option<string>, question: Option<string>, lifeTimeInSeconds: Option<int>,
                                   maxAssignments: Option<int>, requesterAnnotation: Option<string>,
                                   reply: Reply, jsonParse: string -> Option<Node>)
    requires !TruthyText(hitTypeId) || !TruthyText(question)
    ensures var c := Create(hitTypeId, question, lifeTimeInSeconds, maxAssignments, requesterAnnotation, reply, jsonParse);
            && c.request.None?
            && c.outcome.Fail?
            && (!TruthyText(hitTypeId) ==> Invalid(MsgHitTypeId) in c.outcome.error.errors)
            && (!TruthyText(question) ==> Invalid(MsgQuestion) in c.outcome.error.errors)
  {
    var h := NewHit(hitTypeId, question, lifeTimeInSeconds, maxAssignments, requesterAnnotation);
    ValidateReports(h);
    var errs := Validate(h);
    if !TruthyText(hitTypeId) {
      var i :| 0 <= i < |errs| && errs[i] == MsgHitTypeId;
      assert InvalidErrors(errs)[i] == Invalid(MsgHitTypeId);
    }
    if !TruthyText(question) {
      var i :| 0 <= i < |errs| && errs[i] == MsgQuestion;
      assert InvalidErrors(errs)[i] == Invalid(MsgQuestion);
    }
  }

  /**
   * A successful creation returns the record the request described: the
   * sent question, lifetime and maxAssignments are the returned ones, and
   * the id is the response's HITId.
   */
  lemma CreateReturnsWhatWasSent(h: Hit, response: Node, jsonParse: string -> Option<Node>)
    requires WellFormed(h)
    ensures var c := CreateCall(h, Responded(response), jsonParse);
            && c.outcome.Done?
            && Entry(c.request.value.params, "Question") == TextValue(c.outcome.value.question)
            && Entry(c.request.value.params, "LifetimeInSeconds") == NumberValue(c.outcome.value.lifeTimeInSeconds)
            && (TruthyInt(h.maxAssignments) ==>
                  Entry(c.request.value.params, "MaxAssignments") == NumberValue(c.outcome.value.maxAssignments))
            && c.outcome.value.id == Overwrite(h.id, LeafText(ResultOf(response), "HITId"))
  {
  }

  // ---------------------------------------------------------------- get

  /** `get`: a gateway error is passed through bare; a response populates a fresh HIT from its `Result`. */
  function GetHit(hitId: Option<string>, reply: Reply, jsonParse: string -> Option<Node>): (c: Call<Hit>)
    ensures c.request.Some? && c.request.value.operation == "GetHIT"
    ensures Entry(c.request.value.params, "HITId") == TextValue(hitId) && c.request.value.params.Keys <= {"HITId"}
    ensures c.outcome.Fail? <==> reply.Failed?
    ensures reply.Failed? ==> c.outcome.error == BareError(Transport(reply.detail))
    ensures reply.Responded? ==> c.outcome.value.id == LeafText(ResultOf(reply.response), "HITId")
    ensures reply.Responded? ==> c.outcome.value.hitStatus == LeafText(ResultOf(reply.response), "HITStatus")
  {
    Call(Some(Request(Service, "GetHIT", Get, Assign(map[], "HITId", TextValue(hitId)), Some("HIT"))),
         match reply
         case Failed(detail) => Fail(BareError(Transport(detail)))
         case Responded(response) => Done(PopulateFromResponse(EmptyHit(), ResultOf(response), jsonParse)))
  }

  /**
   * A fetched HIT whose `Result` carries a non-empty RequesterAnnotation
   * holds its parse, or `null` when it does not parse; the fetch still
   * succeeds. Without one, the annotation stays unset.
   */
  lemma GetParsesResponseAnnotation(hitId: Option<string>, response: Node, jsonParse: string -> Option<Node>)
    ensures var out := GetHit(hitId, Responded(response), jsonParse).outcome;
            var t := LeafText(ResultOf(response), "RequesterAnnotation");
            && out.Done?
            && (t.None? ==> out.value.requesterAnnotation.None?)
            && (t.Some? && t.value != "" && jsonParse(t.value).None? ==> out.value.requesterAnnotation == Some(Null))
            && (t.Some? && t.value != "" && jsonParse(t.value).Some? ==>
                  out.value.requesterAnnotation == Some(Parsed(jsonParse(t.value).value)))
  {
  }

  // ---------------------------------------------------------------- HIT listings

  /** `(numResults, totalNumResults, pageNumber, hits)`, the callback order of `search` and `getReviewable`. */
  type HitPage = (Option<int>, Option<int>, Option<int>, seq<Hit>)

  /**
   * After the checks pass, read the three counters from `Result` and build
   * one HIT per entry of its `HIT` field; the first failing check instead
   * yields its message as a one-element list.
   */
  function HitPageFrom(response: Node, checks: seq<Check>, parseInt: string -> Option<int>,
                       jsonParse: string -> Option<Node>): Outcome<HitPage> {
    var result := ResultOf(response);
    match FirstMissing(checks)
    case Some(i) => Fail(ErrorList([MissingNode(checks[i].message)]))
    case None =>
      Done((IntAt(parseInt, result, "NumResults"), IntAt(parseInt, result, "TotalNumResults"),
            IntAt(parseInt, result, "PageNumber"), HitsFrom(HitNodes(Child(result, "HIT")), jsonParse)))
  }

  function SearchMessage(node: string): string {
    MissingNodeMessage("SearchHITsResult", node)
  }

  /** The `search` checks, all on `Result`. */
  function SearchChecks(response: Node): seq<Check> {
    var result := ResultOf(response);
    [Check(["NumResults"], result, SearchMessage("NumResults")),
     Check(["TotalNumResults"], result, SearchMessage("TotalNumResults")),
     Check(["PageNumber"], result, SearchMessage("PageNumber"))]
  }

  function SearchRequest(o: Options, toResponseKey: Scalar -> Scalar): Request {
    Request(Service, "SearchHITs", Get, SearchParams(o, toResponseKey), None)
  }

  /** `search`. */
  function Search(o: Options, toResponseKey: Scalar -> Scalar, reply: Reply,
                  parseInt: string -> Option<int>, jsonParse: string -> Option<Node>): (c: Call<HitPage>)
    ensures c.request == Some(SearchRequest(o, toResponseKey))
    ensures reply.Failed? ==> c.outcome == Fail(BareError(Transport(reply.detail)))
  {
    Call(Some(SearchRequest(o, toResponseKey)),
         match reply
         case Failed(detail) => Fail(BareError(Transport(detail)))
         case Responded(response) => HitPageFrom(response, SearchChecks(response), parseInt, jsonParse))
  }

  /**
   * `search` checks NumResults, TotalNumResults and PageNumber under
   * `Result` in that order; the first missing one is the only error
   * reported, and with all three present the call succeeds.
   */
  lemma SearchChecksInOrder(o: Options, toResponseKey: Scalar -> Scalar, response: Node,
                            parseInt: string -> Option<int>, jsonParse: string -> Option<Node>)
    ensures var result := ResultOf(response);
            var out := Search(o, toResponseKey, Responded(response), parseInt, jsonParse).outcome;
            && (!NodeExists(["NumResults"], result) ==>
                  out == Fail(ErrorList([MissingNode(SearchMessage("NumResults"))])))
            && (NodeExists(["NumResults"], result) && !NodeExists(["TotalNumResults"], result) ==>
                  out == Fail(ErrorList([MissingNode(SearchMessage("TotalNumResults"))])))
            && (NodeExists(["NumResults"], result) && NodeExists(["TotalNumResults"], result)
                && !NodeExists(["PageNumber"], result) ==>
                  out == Fail(ErrorList([MissingNode(SearchMessage("PageNumber"))])))
            && (out.Done? <==> NodeExists(["NumResults"], result) && NodeExists(["TotalNumResults"], result)
                               && NodeExists(["PageNumber"], result))
  {
    FirstMissingOfThree(SearchChecks(response));
  }

  /**
   * A successful `search` returns the three counters parsed from `Result`
   * and one HIT per `HIT` entry: none for a falsy field, one for a single
   * record, one per element, in order, for an array.
   */
  lemma SearchSuccess(o: Options, toResponseKey: Scalar -> Scalar, response: Node,
                      parseInt: string -> Option<int>, jsonParse: string -> Option<Node>)
    requires NodeExists(["NumResults"], ResultOf(response)) && NodeExists(["TotalNumResults"], ResultOf(response))
    requires NodeExists(["PageNumber"], ResultOf(response))
    ensures Search(o, toResponseKey, Responded(response), parseInt, jsonParse).outcome.Done?
    ensures var result := ResultOf(response);
            var page := Search(o, toResponseKey, Responded(response), parseInt, jsonParse).outcome.value;
            var field := Child(result, "HIT");
            && page.0 == IntAt(parseInt, result, "NumResults")
            && page.1 == IntAt(parseInt, result, "TotalNumResults")
            && page.2 == IntAt(parseInt, result, "PageNumber")
            && (!TruthyNode(field) ==> page.3 == [])
            && (TruthyNode(field) && !field.value.Array? ==> page.3 == [HitFromResponse(field.value, jsonParse)])
            && (TruthyNode(field) && field.value.Array? ==>
                  |page.3| == |field.value.items|
                  && forall i :: 0 <= i < |page.3| ==> page.3[i] == HitFromResponse(field.value.items[i], jsonParse))
  {
    FirstMissingOfThree(SearchChecks(response));
  }

  function ReviewableMessage(node: string): string {
    MissingNodeMessage("GetReviewableHITsResult", node)
  }

  /** The `getReviewable` checks; TotalNumResults is looked for on the whole response, not on `Result`. */
  function ReviewableChecks(response: Node): seq<Check> {
    var result := ResultOf(response);
    [Check(["NumResults"], result, ReviewableMessage("NumResults")),
     Check(["TotalNumResults"], Some(response), ReviewableMessage("TotalNumResults")),
     Check(["PageNumber"], result, ReviewableMessage("PageNumber"))]
  }

  function ReviewableRequest(o: Options, toResponseKey: Scalar -> Scalar): Request {
    Request(Service, "GetReviewableHITs", Get, ReviewableParams(o, toResponseKey), None)
  }

  /** `getReviewable`. */
  function GetReviewable(o: Options, toResponseKey: Scalar -> Scalar, reply: Reply,
                         parseInt: string -> Option<int>, jsonParse: string -> Option<Node>): (c: Call<HitPage>)
    ensures c.request == Some(ReviewableRequest(o, toResponseKey))
    ensures reply.Failed? ==> c.outcome == Fail(BareError(Transport(reply.detail)))
  {
    Call(Some(ReviewableRequest(o, toResponseKey)),
         match reply
         case Failed(detail) => Fail(BareError(Transport(detail)))
         case Responded(response) => HitPageFrom(response, ReviewableChecks(response), parseInt, jsonParse))
  }

  /**
   * `getReviewable` checks NumResults on `Result`, TotalNumResults on the
   * outer response and PageNumber on `Result`, in that order; only the
   * first missing one is reported, and it succeeds exactly when all three
   * exist.
   */
  lemma ReviewableChecksInOrder(o: Options, toResponseKey: Scalar -> Scalar, response: Node,
                                parseInt: string -> Option<int>, jsonParse: string -> Option<Node>)
    ensures var result := ResultOf(response);
            var out := GetReviewable(o, toResponseKey, Responded(response), parseInt, jsonParse).outcome;
            && (!NodeExists(["NumResults"], result) ==>
                  out == Fail(ErrorList([MissingNode(ReviewableMessage("NumResults"))])))
            && (NodeExists(["NumResults"], result) && !NodeExists(["TotalNumResults"], Some(response)) ==>
                  out == Fail(ErrorList([MissingNode(ReviewableMessage("TotalNumResults"))])))
            && (NodeExists(["NumResults"], result) && NodeExists(["TotalNumResults"], Some(response))
                && !NodeExists(["PageNumber"], result) ==>
                  out == Fail(ErrorList([MissingNode(ReviewableMessage("PageNumber"))])))
            && (out.Done? <==> NodeExists(["NumResults"], result) && NodeExists(["TotalNumResults"], Some(response))
                               && NodeExists(["PageNumber"], result))
  {
    FirstMissingOfThree(ReviewableChecks(response));
  }

  /** A successful `getReviewable` reads its counters and HITs from `Result`, as `search` does. */
  lemma ReviewableSuccess(o: Options, toResponseKey: Scalar -> Scalar, response: Node,
                          parseInt: string -> Option<int>, jsonParse: string -> Option<Node>)
    requires NodeExists(["NumResults"], ResultOf(response)) && NodeExists(["TotalNumResults"], Some(response))
    requires NodeExists(["PageNumber"], ResultOf(response))
    ensures var result := ResultOf(response);
            var out := GetReviewable(o, toResponseKey, Responded(response), parseInt, jsonParse).outcome;
            && out.Done?
            && out.value.0 == IntAt(parseInt, result, "NumResults")
            && out.value.1 == IntAt(parseInt, result, "TotalNumResults")
            && out.value.2 == IntAt(parseInt, result, "PageNumber")
            && out.value.3 == HitsFrom(HitNodes(Child(result, "HIT")), jsonParse)
  {
    FirstMissingOfThree(ReviewableChecks(response));
  }

  /** A page whose `Result` carries all three counters, with nothing outside it, is refused. */
  lemma ReviewableRefusesCompleteResult(toResponseKey: Scalar -> Scalar, parseInt: string -> Option<int>,
                                        jsonParse: string -> Option<Node>)
    ensures var result := Object(map["NumResults" := Leaf("1"), "TotalNumResults" := Leaf("1"), "PageNumber" := Leaf("1")]);
            GetReviewable(NoOptions, toResponseKey, Responded(Object(map["Result" := result])), parseInt, jsonParse).outcome
              == Fail(ErrorList([MissingNode(ReviewableMessage("TotalNumResults"))]))
  {
    var result := Object(map["NumResults" := Leaf("1"), "TotalNumResults" := Leaf("1"), "PageNumber" := Leaf("1")]);
    var response := Object(map["Result" := result]);
    assert ResultOf(response) == Some(result);
    NodeExistsSingle("NumResults", Some(result));
    NodeExistsSingle("TotalNumResults", Some(response));
    ReviewableChecksInOrder(NoOptions, toResponseKey, response, parseInt, jsonParse);
  }

  /** A page whose `Result` lacks TotalNumResults is accepted when the outer response has it, with the counter unparsed. */
  lemma ReviewableAcceptsMisplacedTotal(toResponseKey: Scalar -> Scalar, parseInt: string -> Option<int>,
                                        jsonParse: string -> Option<Node>)
    ensures var result := Object(map["NumResults" := Leaf("1"), "PageNumber" := Leaf("1")]);
            var out := GetReviewable(NoOptions, toResponseKey,
                                     Responded(Object(map["TotalNumResults" := Leaf("1"), "Result" := result])),
                                     parseInt, jsonParse).outcome;
            out.Done? && out.value.1 == None
  {
    var result := Object(map["NumResults" := Leaf("1"), "PageNumber" := Leaf("1")]);
    var response := Object(map["TotalNumResults" := Leaf("1"), "Result" := result]);
    assert ResultOf(response) == Some(result);
    NodeExistsSingle("NumResults", Some(result));
    NodeExistsSingle("TotalNumResults", Some(response));
    NodeExistsSingle("PageNumber", Some(result));
    ReviewableSuccess(NoOptions, toResponseKey, response, parseInt, jsonParse);
    assert Child(Some(result), "TotalNumResults").None?;
  }

  // ---------------------------------------------------------------- assignments

  /** `(numResults, pageNumber, totalNumResults, assignments)`: the callback order of `getAssignments`. */
  type AssignmentPage = (Option<int>, Option<int>, Option<int>, seq<Assignment>)

  function AssignmentsMessage(node: string): string {
    MissingNodeMessage("GetAssignmentsForHITResult", node)
  }

  /** The `getAssignments` checks: NumResults, PageNumber, then TotalNumResults, whose message names NumResults. */
  function AssignmentChecks(response: Node): seq<Check> {
    var result := ResultOf(response);
    [Check(["NumResults"], result, AssignmentsMessage("NumResults")),
     Check(["PageNumber"], result, AssignmentsMessage("PageNumber")),
     Check(["TotalNumResults"], result, AssignmentsMessage("NumResults"))]
  }

  function AssignmentsRequest(hitId: Option<string>, o: Options): Request {
    Request(Service, "GetAssignmentsForHIT", Get, AssignmentParams(hitId, o), None)
  }

  /** `getAssignments`. */
  function GetAssignments(hitId: Option<string>, o: Options, reply: Reply,
                          parseInt: string -> Option<int>): (c: Call<AssignmentPage>)
    ensures c.request == Some(AssignmentsRequest(hitId, o))
    ensures reply.Failed? ==> c.outcome == Fail(BareError(Transport(reply.detail)))
  {
    Call(Some(AssignmentsRequest(hitId, o)),
         match reply
         case Failed(detail) => Fail(BareError(Transport(detail)))
         case Responded(response) =>
           var result := ResultOf(response);
           var checks := AssignmentChecks(response);
           match FirstMissing(checks)
           case Some(i) => Fail(ErrorList([MissingNode(checks[i].message)]))
           case None =>
             Done((IntAt(parseInt, result, "NumResults"), IntAt(parseInt, result, "PageNumber"),
                   IntAt(parseInt, result, "TotalNumResults"), AssignmentsFrom(AssignmentNodes(Child(result, "Assignment"))))))
  }

  /**
   * `getAssignments` checks NumResults, PageNumber and TotalNumResults under
   * `Result` in that order, the last reported with the NumResults message;
   * it succeeds exactly when all three exist.
   */
  lemma AssignmentsChecksInOrder(hitId: Option<string>, o: Options, response: Node, parseInt: string -> Option<int>)
    ensures var result := ResultOf(response);
            var out := GetAssignments(hitId, o, Responded(response), parseInt).outcome;
            && (!NodeExists(["NumResults"], result) ==>
                  out == Fail(ErrorList([MissingNode(AssignmentsMessage("NumResults"))])))
            && (NodeExists(["NumResults"], result) && !NodeExists(["PageNumber"], result) ==>
                  out == Fail(ErrorList([MissingNode(AssignmentsMessage("PageNumber"))])))
            && (NodeExists(["NumResults"], result) && NodeExists(["PageNumber"], result)
                && !NodeExists(["TotalNumResults"], result) ==>
                  out == Fail(ErrorList([MissingNode(AssignmentsMessage("NumResults"))])))
            && (out.Done? <==> NodeExists(["NumResults"], result) && NodeExists(["PageNumber"], result)
                               && NodeExists(["TotalNumResults"], result))
  {
    FirstMissingOfThree(AssignmentChecks(response));
  }

  /**
   * A successful `getAssignments` returns (numResults, pageNumber,
   * totalNumResults, assignments): one Assignment per entry of the field, in
   * order, and none when the field is undefined.
   */
  lemma AssignmentsSuccess(hitId: Option<string>, o: Options, response: Node, parseInt: string -> Option<int>)
    requires NodeExists(["NumResults"], ResultOf(response)) && NodeExists(["PageNumber"], ResultOf(response))
    requires NodeExists(["TotalNumResults"], ResultOf(response))
    ensures var result := ResultOf(response);
            var out := GetAssignments(hitId, o, Responded(response), parseInt).outcome;
            var field := Child(result, "Assignment");
            && out.Done?
            && out.value.0 == IntAt(parseInt, result, "NumResults")
            && out.value.1 == IntAt(parseInt, result, "PageNumber")
            && out.value.2 == IntAt(parseInt, result, "TotalNumResults")
            && (field.None? ==> out.value.3 == [])
            && (field.Some? && !field.value.Array? ==> out.value.3 == [Assignment(field.value)])
            && (field.Some? && field.value.Array? ==>
                  |out.value.3| == |field.value.items|
                  && forall i :: 0 <= i < |out.value.3| ==> out.value.3[i].response == field.value.items[i])
  {
    FirstMissingOfThree(AssignmentChecks(response));
  }

  /** `HIT.prototype.getAssignments`: the free operation applied to the record's id. */
  function HitGetAssignments(h: Hit, o: Options, reply: Reply, parseInt: string -> Option<int>): (c: Call<AssignmentPage>)
    ensures c == GetAssignments(h.id, o, reply, parseInt)
    ensures Entry(c.request.value.params, "HITId") == TextValue(h.id)
  {
    GetAssignments(h.id, o, reply, parseInt)
  }
}
