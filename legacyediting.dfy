/**
 * The view-to-model length of the older editing plugin
 * (src/descriptionlistediting.js): how many model list items a view list
 * item stands for.
 */
module LegacyEditing {
  import opened ViewTree

  /**
   * `getViewListItemLength`: 1 for the item itself plus the lengths of the
   * children of its `dl` children. It is the number of view list items
   * reachable from the item through nested lists, the item included. The
   * source throws on an item that is not `Walkable`.
   */
  function GetViewListItemLength(element: ViewNode): (length: nat)
    requires Walkable(element)
    ensures length >= 1
    ensures length == |Items(element)|
    decreases element, 2, 0
  {
    1 + ListsLength(element, 0)
  }

  /** The outer loop from child `i` on: only `dl` children contribute. */
  function ListsLength(element: ViewNode, i: nat): (n: nat)
    requires Walkable(element) && i <= |ChildrenOf(element)|
    ensures n == |ListsItems(element, i)|
    decreases element, 1, |ChildrenOf(element)| - i
  {
    if i == |ChildrenOf(element)| then 0
    else
      var child := ChildrenOf(element)[i];
      (if IsList(child) then MembersLength(child, 0) else 0) + ListsLength(element, i + 1)
  }

  /** The inner loop over the children of one `dl` from child `j` on. */
  function MembersLength(dl: ViewNode, j: nat): (n: nat)
    requires j <= |ChildrenOf(dl)| && forall m :: m in ChildrenOf(dl) ==> Walkable(m)
    ensures n == |MembersItems(dl, j)|
    decreases dl, 0, |ChildrenOf(dl)| - j
  {
    if j == |ChildrenOf(dl)| then 0
    else GetViewListItemLength(ChildrenOf(dl)[j]) + MembersLength(dl, j + 1)
  }

  /** No `dl` child from `i` on: the outer loop adds nothing. */
  lemma {:induction false} NoListsAddNothing(element: ViewNode, i: nat)
    requires Walkable(element) && i <= |ChildrenOf(element)|
    requires forall k :: i <= k < |ChildrenOf(element)| ==> !IsList(ChildrenOf(element)[k])
    ensures ListsLength(element, i) == 0
    decreases |ChildrenOf(element)| - i
  {
    if i < |ChildrenOf(element)| {
      NoListsAddNothing(element, i + 1);
    }
  }

  /** An element with no `dl` child can be walked and has length 1. */
  lemma NoListChildMeansOne(element: ViewNode)
    requires element.Element?
    requires forall k :: 0 <= k < |ChildrenOf(element)| ==> !IsList(ChildrenOf(element)[k])
    ensures Walkable(element) && GetViewListItemLength(element) == 1
  {
    forall c | c in element.children ensures !IsList(c) {
      var k :| 0 <= k < |element.children| && element.children[k] == c;
      assert ChildrenOf(element)[k] == c;
    }
    NoListsAddNothing(element, 0);
  }

  /** A text node directly inside a nested `dl` is where the source throws. */
  lemma TextInListNotWalkable()
    ensures !Walkable(Element("dd", [Element("dl", [Text("t")])]))
  {
    var dl := Element("dl", [Text("t")]);
    assert !Walkable(Text("t"));
    assert dl in Element("dd", [dl]).children && Text("t") in dl.children;
  }
}
