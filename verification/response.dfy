/**
 * The tree a remote call answers with (an XML document turned into nested
 * objects), and the existence check used before reading a node of it.
 */
module Response {
  import opened Wrappers

  /** A leaf carries element text; repeated elements become an array. */
  datatype Node = Leaf(text: string) | Object(fields: map<string, Node>) | Array(items: seq<Node>)

  /** `n[key]`: the child stored under `key` of an object, `undefined` otherwise. */
  function Child(n: Option<Node>, key: string): Option<Node> {
    if n.Some? && n.value.Object? && key in n.value.fields then Some(n.value.fields[key]) else None
  }

  /** `response.Result`: the payload of an operation. */
  function ResultOf(response: Node): Option<Node> {
    Child(Some(response), "Result")
  }

  /** Whether every segment of `path` exists, walking down from `n`. */
  predicate NodeExists(path: seq<string>, n: Option<Node>)
    decreases |path|
  {
    if |path| == 0 then n.Some? else NodeExists(path[1..], Child(n, path[0]))
  }

  /** A single-segment path exists exactly when its key is present. */
  lemma NodeExistsSingle(key: string, n: Option<Node>)
    ensures NodeExists([key], n) <==> (n.Some? && n.value.Object? && key in n.value.fields)
  {
    assert [key][1..] == [];
  }

  /** `if (node)` for a response node: `undefined` and empty text are falsy. */
  predicate TruthyNode(n: Option<Node>) {
    match n
    case None => false
    case Some(Leaf(t)) => t != ""
    case Some(_) => true
  }

  /** The text of the leaf stored under `key`, if there is one. */
  function LeafText(n: Option<Node>, key: string): Option<string> {
    match Child(n, key)
    case Some(Leaf(t)) => Some(t)
    case _ => None
  }

  /**
   * `parseInt(n[key], 10)`: `None` stands for `NaN`. Only a leaf's text can
   * parse; an absent node or an object gives `NaN`.
   */
  function IntAt(parseInt: string -> Option<int>, n: Option<Node>, key: string): Option<int> {
    match LeafText(n, key)
    case Some(t) => parseInt(t)
    case None => None
  }
}
