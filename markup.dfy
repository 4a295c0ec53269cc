/**
 * The parsed document, as the script navigates it: elements with a tag, a
 * `class` attribute, a leading `text`, children in order and the joined text of
 * `itertext()`. An element's following siblings are the rest of its parent's
 * child list, so a position in the document is a child list and an index.
 * Comments and other non-element nodes are nodes whose tag is no element name.
 */
module Markup {
  import opened Wrappers

  datatype Node = Node(
    tag: string,
    cls: Option<string>,      // `node.get('class')`
    text: Option<string>,     // `node.text`; lxml gives None when there is no leading text
    children: seq<Node>,      // `node.getchildren()`
    allText: string)          // `''.join(node.itertext())`, taken as given

  /** A node in place: `run` is its parent's child list and `run[at]` the node. */
  datatype Cursor = Cursor(run: seq<Node>, at: nat)

  predicate ValidCursor(c: Cursor) {
    c.at < |c.run|
  }

  predicate AllValid(cs: seq<Cursor>) {
    forall i | 0 <= i < |cs| :: ValidCursor(cs[i])
  }

  /** The node a cursor stands on. */
  function NodeAt(c: Cursor): Node
    requires ValidCursor(c)
  {
    c.run[c.at]
  }

  /** Index of the first node of `run` at or after `from` whose tag is `tag`:
      `next(node.iterchildren(tag))` and `next(node.itersiblings(tag))`. */
  function FirstFrom(run: seq<Node>, from: nat, tag: string): (r: Option<nat>)
    ensures r.Some? ==> from <= r.value < |run| && run[r.value].tag == tag
    ensures forall j | from <= j < |run| && (r.None? || j < r.value) :: run[j].tag != tag
    decreases |run| - from
  {
    if from >= |run| then None
    else if run[from].tag == tag then Some(from)
    else FirstFrom(run, from + 1, tag)
  }

  /** Index in `run` of the first node at or after `from` tagged `tag`, or
      `|run|` if there is none: where a sibling walk that breaks on `tag` ends. */
  function StopAt(run: seq<Node>, from: nat, tag: string): (r: nat)
    ensures from <= |run| ==> from <= r <= |run|
    ensures r < |run| ==> run[r].tag == tag
    ensures forall j | from <= j < |run| && j < r :: run[j].tag != tag
  {
    match FirstFrom(run, from, tag)
    case Some(j) => j
    case None => if from <= |run| then |run| else from
  }

  /** An XPath step `//tag` or `//tag[@class="cls"]`. */
  datatype Query = Query(tag: string, cls: Option<string>)

  predicate Matches(n: Node, q: Query) {
    n.tag == q.tag && (q.cls.None? || n.cls == q.cls)
  }

  /** Every node at or after `run[from]`, with its descendants, that the query
      matches, in document order. */
  function SelectFrom(run: seq<Node>, from: nat, q: Query): (r: seq<Cursor>)
    ensures forall c | c in r :: ValidCursor(c) && Matches(c.run[c.at], q)
    decreases run, |run| - from
  {
    if from >= |run| then []
    else
      (if Matches(run[from], q) then [Cursor(run, from)] else [])
      + SelectFrom(run[from].children, 0, q)
      + SelectFrom(run, from + 1, q)
  }

  /** `root.xpath(...)` on a document whose root element is `root`. */
  function Select(root: Node, q: Query): (r: seq<Cursor>)
    ensures AllValid(r)
    ensures forall i | 0 <= i < |r| :: Matches(NodeAt(r[i]), q)
  {
    SelectFrom([root], 0, q)
  }
}
