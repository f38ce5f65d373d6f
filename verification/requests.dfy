/**
 * What crosses the boundary to the request gateway: the request an operation
 * issues, the reply it gets, and the error shapes its callback receives.
 */
module Requests {
  import opened Wrappers
  import opened Values
  import opened Response

  /** A flat parameter bag: remote field name to scalar; an unset key is absent. */
  type Params = map<string, Scalar>

  datatype Verb = Get | Post

  /** One remote call: service, operation, verb, parameters and the optional response root key. */
  datatype Request = Request(service: string, operation: string, verb: Verb, params: Params, rootKey: Option<string>)

  const Service := "AWSMechanicalTurkRequester"

  /** What the gateway hands back: a transport or service error, or the response tree. */
  datatype Reply = Failed(detail: string) | Responded(response: Node)

  /** A validation message, a synthesized missing-node error, or a gateway error passed through. */
  datatype Error = Invalid(message: string) | MissingNode(message: string) | Transport(detail: string)

  /**
   * The callback's first argument: locally synthesized errors and creation's
   * transport errors come as a list; listings pass gateway errors bare.
   */
  datatype CallbackError = ErrorList(errors: seq<Error>) | BareError(error: Error)

  /** The callback's arguments: an error, or the results. */
  datatype Outcome<+T> = Fail(error: CallbackError) | Done(value: T)

  /** One operation: the request it issued, if any, and what its callback received. */
  datatype Call<+T> = Call(request: Option<Request>, outcome: Outcome<T>)

  /** The options object a caller passes to the listing operations; each operation reads some of it. */
  datatype Options = Options(
    hitTypeId: Option<Scalar>,
    status: Option<Scalar>,
    assignmentStatus: Option<Scalar>,
    sortProperty: Option<Scalar>,
    sortDirection: Option<Scalar>,
    pageSize: Option<Scalar>,
    pageNumber: Option<Scalar>)

  /** `if (! options) options = {}`. */
  const NoOptions := Options(None, None, None, None, None, None, None)

  /** The value a request carries under `key`, `None` when the key is absent. */
  function Entry(bag: Params, key: string): Option<Scalar> {
    if key in bag then Some(bag[key]) else None
  }

  /** `bag[key] = value`, where assigning `undefined` leaves the key out. */
  function Assign(bag: Params, key: string, value: Option<Scalar>): (r: Params)
    ensures Entry(r, key) == value
    ensures forall k :: k != key ==> Entry(r, k) == Entry(bag, k)
    ensures r.Keys <= bag.Keys + {key}
  {
    if value.Some? then bag[key := value.value] else bag - {key}
  }

  /** `if (cond) bag[key] = value`. */
  function AssignIf(bag: Params, cond: bool, key: string, value: Option<Scalar>): Params {
    if cond then Assign(bag, key, value) else bag
  }

  /**
   * The `search` bag: SortDirection, PageSize and PageNumber are copied
   * whenever defined; SortProperty only when truthy, translated to its
   * response key.
   */
  function SearchParams(o: Options, toResponseKey: Scalar -> Scalar): (bag: Params)
    ensures bag.Keys <= {"SortDirection", "PageSize", "PageNumber", "SortProperty"}
    ensures Entry(bag, "SortDirection") == o.sortDirection
    ensures Entry(bag, "PageSize") == o.pageSize
    ensures Entry(bag, "PageNumber") == o.pageNumber
    ensures Entry(bag, "SortProperty") == if Truthy(o.sortProperty) then Some(toResponseKey(o.sortProperty.value)) else None
  {
    var literal := Assign(Assign(Assign(map[], "SortDirection", o.sortDirection), "PageSize", o.pageSize), "PageNumber", o.pageNumber);
    AssignIf(literal, Truthy(o.sortProperty), "SortProperty",
             if Truthy(o.sortProperty) then Some(toResponseKey(o.sortProperty.value)) else None)
  }

  /**
   * The `getReviewable` bag: HitTypeId, Status, SortDirection, PageSize and
   * PageNumber whenever defined; SortProperty only when truthy, translated.
   */
  function ReviewableParams(o: Options, toResponseKey: Scalar -> Scalar): (bag: Params)
    ensures bag.Keys <= {"HitTypeId", "Status", "SortDirection", "PageSize", "PageNumber", "SortProperty"}
    ensures Entry(bag, "HitTypeId") == o.hitTypeId
    ensures Entry(bag, "Status") == o.status
    ensures Entry(bag, "SortDirection") == o.sortDirection
    ensures Entry(bag, "PageSize") == o.pageSize
    ensures Entry(bag, "PageNumber") == o.pageNumber
    ensures Entry(bag, "SortProperty") == if Truthy(o.sortProperty) then Some(toResponseKey(o.sortProperty.value)) else None
  {
    var literal := Assign(Assign(Assign(Assign(Assign(map[],
                     "HitTypeId", o.hitTypeId), "Status", o.status), "SortDirection", o.sortDirection),
                     "PageSize", o.pageSize), "PageNumber", o.pageNumber);
    AssignIf(literal, Truthy(o.sortProperty), "SortProperty",
             if Truthy(o.sortProperty) then Some(toResponseKey(o.sortProperty.value)) else None)
  }

  /**
   * The `getAssignments` bag: HITId is always assigned; every other key only
   * when its option is truthy. SortDirection carries the sortProperty value,
   * untranslated.
   */
  function AssignmentParams(hitId: Option<string>, o: Options): (bag: Params)
    ensures bag.Keys <= {"HITId", "AssignmentStatus", "SortProperty", "SortDirection", "PageSize", "PageNumber"}
    ensures Entry(bag, "HITId") == TextValue(hitId)
    ensures Entry(bag, "AssignmentStatus") == if Truthy(o.assignmentStatus) then o.assignmentStatus else None
    ensures Entry(bag, "SortProperty") == if Truthy(o.sortProperty) then o.sortProperty else None
    ensures Entry(bag, "SortDirection") == if Truthy(o.sortDirection) then o.sortProperty else None
    ensures Entry(bag, "PageSize") == if Truthy(o.pageSize) then o.pageSize else None
    ensures Entry(bag, "PageNumber") == if Truthy(o.pageNumber) then o.pageNumber else None
  {
    var bag := Assign(map[], "HITId", TextValue(hitId));
    var bag := AssignIf(bag, Truthy(o.assignmentStatus), "AssignmentStatus", o.assignmentStatus);
    var bag := AssignIf(bag, Truthy(o.sortProperty), "SortProperty", o.sortProperty);
    var bag := AssignIf(bag, Truthy(o.sortDirection), "SortDirection", o.sortProperty);
    var bag := AssignIf(bag, Truthy(o.pageSize), "PageSize", o.pageSize);
    AssignIf(bag, Truthy(o.pageNumber), "PageNumber", o.pageNumber)
  }

  /** The sort direction a caller asks of `getAssignments` is never sent: only the sort property's value is. */
  lemma AssignmentSortDirectionIgnored(hitId: Option<string>)
    ensures var o := NoOptions.(sortProperty := Some(Text("SubmitTime")), sortDirection := Some(Text("Descending")));
            Entry(AssignmentParams(hitId, o), "SortDirection") == Some(Text("SubmitTime"))
  {
  }
}
