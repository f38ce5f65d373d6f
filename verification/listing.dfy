/**
 * Post-processing shared by the paginated listings: the pagination-node
 * checks, and the normalization of a list-shaped response field.
 */
module Listing {
  import opened Wrappers
  import opened Response
  import opened HitRecord

  /** One existence check: a path, the subtree it is walked from, and the error message if it is missing. */
  datatype Check = Check(path: seq<string>, root: Option<Node>, message: string)

  predicate Passes(c: Check) {
    NodeExists(c.path, c.root)
  }

  /** The index of the first failing check; the checks after it are never run. */
  function FirstMissing(checks: seq<Check>): (r: Option<nat>)
    ensures r.Some? ==> r.value < |checks| && !Passes(checks[r.value])
    ensures r.Some? ==> forall j :: 0 <= j < r.value ==> Passes(checks[j])
    ensures r.None? <==> forall j :: 0 <= j < |checks| ==> Passes(checks[j])
  {
    if |checks| == 0 then None
    else if !Passes(checks[0]) then Some(0)
    else match FirstMissing(checks[1..])
         case None => None
         case Some(i) => Some(i + 1)
  }

  /** Three checks are run in order: the first that fails is reported. */
  lemma FirstMissingOfThree(checks: seq<Check>)
    requires |checks| == 3
    ensures FirstMissing(checks) ==
      if !Passes(checks[0]) then Some(0)
      else if !Passes(checks[1]) then Some(1)
      else if !Passes(checks[2]) then Some(2)
      else None
  {
    var r := FirstMissing(checks);
    if r.Some? {
      assert r.value == 0 || Passes(checks[0]);
      assert r.value <= 1 || Passes(checks[1]);
    }
  }

  /** `No "<result> > <node>" node on the response`. */
  function MissingNodeMessage(resultName: string, node: string): string {
    "No \"" + resultName + " > " + node + "\" node on the response"
  }

  /**
   * The `HIT` field as a list: a falsy value gives no entries, an array its
   * elements in order, any other value one entry.
   */
  function HitNodes(v: Option<Node>): seq<Node> {
    if !TruthyNode(v) then []
    else if v.value.Array? then v.value.items
    else [v.value]
  }

  /**
   * The `Assignment` field as a list: only `undefined` gives no entries; an
   * array gives its elements in order, any other value one entry.
   */
  function AssignmentNodes(v: Option<Node>): seq<Node> {
    match v
    case None => []
    case Some(Array(items)) => items
    case Some(n) => [n]
  }

  /**
   * How the service renders a list-shaped field: no element for an empty
   * list, the element itself for one result, an array otherwise.
   */
  function Elide(items: seq<Node>): Option<Node> {
    if |items| == 0 then None
    else if |items| == 1 then Some(items[0])
    else Some(Array(items))
  }

  /** Both normalizations recover a list of records from its rendering. */
  lemma NormalizationUndoesElision(items: seq<Node>)
    requires forall i :: 0 <= i < |items| ==> items[i].Object?
    ensures HitNodes(Elide(items)) == items
    ensures AssignmentNodes(Elide(items)) == items
  {
  }

  /** The two normalizations differ only on an empty text node, which `HIT` drops and `Assignment` keeps. */
  lemma NormalizationsAgree(v: Option<Node>)
    ensures HitNodes(v) == AssignmentNodes(v) <==> v != Some(Leaf(""))
  {
    if v == Some(Leaf("")) {
      assert AssignmentNodes(v) == [Leaf("")];
    }
  }

  /** `forEach(... hits.push(hit))`: one populated HIT per entry, in order. */
  function HitsFrom(nodes: seq<Node>, jsonParse: string -> Option<Node>): (hits: seq<Hit>)
    ensures |hits| == |nodes|
    ensures forall i :: 0 <= i < |nodes| ==> hits[i] == HitFromResponse(nodes[i], jsonParse)
    decreases |nodes|
  {
    if |nodes| == 0 then []
    else HitsFrom(nodes[..|nodes| - 1], jsonParse) + [HitFromResponse(nodes[|nodes| - 1], jsonParse)]
  }

  /**
   * An Assignment, represented by the response subtree it is populated
   * from; its own field mapping is not part of this model.
   */
  datatype Assignment = Assignment(response: Node)

  /** `map(... new Assignment ...)`: one Assignment per entry, in order. */
  function AssignmentsFrom(nodes: seq<Node>): (assignments: seq<Assignment>)
    ensures |assignments| == |nodes|
    ensures forall i :: 0 <= i < |nodes| ==> assignments[i].response == nodes[i]
  {
    seq(|nodes|, i requires 0 <= i < |nodes| => Assignment(nodes[i]))
  }
}
