/**
 * The editing view as a rose tree: elements with a name and an ordered
 * sequence of children, and text nodes.
 */
module ViewTree {

  datatype ViewNode =
    | Element(name: string, children: seq<ViewNode>)
    | Text(data: string)

  /** `isList` of converters.js: the node is a `dl` element. */
  predicate IsList(n: ViewNode) {
    n.Element? && n.name == "dl"
  }

  /** The node is a `dd` element. */
  predicate IsDd(n: ViewNode) {
    n.Element? && n.name == "dd"
  }

  /** Children of a node (a text node has none). */
  function ChildrenOf(n: ViewNode): (cs: seq<ViewNode>)
    ensures forall c :: c in cs ==> c < n
  {
    if n.Element? then n.children else []
  }

  /**
   * `getViewListItemLength` can walk the node without throwing: the node is
   * an element (a view text node has no `getChildren`), and so, recursively,
   * is every child of each of its `dl` children.
   */
  predicate Walkable(e: ViewNode)
    decreases e
  {
    e.Element? && forall c, m :: c in e.children && IsList(c) && m in c.children ==> Walkable(m)
  }

  /**
   * The view list items a view item stands for, in document order: the item
   * itself, then, for every `dl` child in turn, the items reachable from each
   * of that list's children.
   */
  function Items(e: ViewNode): (r: seq<ViewNode>)
    ensures |r| >= 1 && r[0] == e
    decreases e, 2, 0
  {
    [e] + ListsItems(e, 0)
  }

  /** The items reachable through the `dl` children of `e` from child `i` on. */
  function ListsItems(e: ViewNode, i: nat): seq<ViewNode>
    requires i <= |ChildrenOf(e)|
    decreases e, 1, |ChildrenOf(e)| - i
  {
    if i == |ChildrenOf(e)| then []
    else
      var child := ChildrenOf(e)[i];
      (if IsList(child) then MembersItems(child, 0) else []) + ListsItems(e, i + 1)
  }

  /** The items reachable from the children of the list `dl` from child `j` on. */
  function MembersItems(dl: ViewNode, j: nat): seq<ViewNode>
    requires j <= |ChildrenOf(dl)|
    decreases dl, 0, |ChildrenOf(dl)| - j
  {
    if j == |ChildrenOf(dl)| then []
    else Items(ChildrenOf(dl)[j]) + MembersItems(dl, j + 1)
  }
}
