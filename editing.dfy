/**
 * The newer editing plugin (src/descriptionlist/descriptionlistediting.js):
 * its view-to-model length and the decisions of its Enter, Backspace and
 * Tab handlers. This plugin spells the model element `descriptionlistItem`.
 */
module Editing {
  import opened Blocks
  import opened ViewTree
  import LegacyEditing

  /** The list item element name used by the newer plugin. */
  const NewItemName: string := "descriptionlistItem"

  /**
   * `getViewListItemLength`, written with the two accumulating loops of the
   * source; it computes the same value as the older plugin's copy.
   */
  method GetViewListItemLength(element: ViewNode) returns (length: nat)
    requires Walkable(element)
    ensures length == LegacyEditing.GetViewListItemLength(element)
    ensures length >= 1 && length == |Items(element)|
    decreases element
  {
    length := 1;
    var children := ChildrenOf(element);
    for i := 0 to |children|
      invariant length + LegacyEditing.ListsLength(element, i) == 1 + LegacyEditing.ListsLength(element, 0)
    {
      var child := children[i];
      if IsList(child) {
        var items := ChildrenOf(child);
        for j := 0 to |items|
          invariant length + LegacyEditing.MembersLength(child, j) + LegacyEditing.ListsLength(element, i + 1)
            == 1 + LegacyEditing.ListsLength(element, 0)
        {
          var itemLength := GetViewListItemLength(items[j]);
          length := length + itemLength;
        }
      }
    }
  }

  /** The model element a selection position sits in, as the key handlers read it. */
  datatype PositionParent = PositionParent(name: string, isEmpty: bool, previousSiblingName: Option<string>)

  /**
   * The state of the selection the handlers consult. `inDd` says whether the
   * view selection is inside a `dd` element: the three listeners are
   * registered with the `dd` context, so outside one they are not called.
   */
  datatype SelectionState = SelectionState(
    inDd: bool,
    isCollapsed: bool,
    firstIsAtStart: bool,
    firstParent: PositionParent,
    lastParent: PositionParent)

  /** What a handler does: the command it executes, and whether it stops the event and prevents the default action. */
  datatype KeyOutcome = KeyOutcome(command: Option<string>, stopped: bool)

  const Ignored: KeyOutcome := KeyOutcome(None, false)

  /** Inside a `dd`, Enter outdents when the selection is collapsed in an empty list item. */
  function OnEnter(sel: SelectionState): (r: KeyOutcome)
    ensures r.stopped <==> r.command.Some?
    ensures r.command.Some? ==> r.command.value == "outdentList"
    ensures r.command.Some? <==>
      sel.inDd && sel.isCollapsed && sel.lastParent.name == NewItemName && sel.lastParent.isEmpty
  {
    if !sel.inDd then Ignored
    else if sel.isCollapsed && sel.lastParent.name == NewItemName && sel.lastParent.isEmpty then
      KeyOutcome(Some("outdentList"), true)
    else
      Ignored
  }

  /**
   * Inside a `dd`, Backspace outdents when deleting backward from a collapsed selection at
   * the start of a list item that has no list item before it.
   */
  function OnDelete(backward: bool, sel: SelectionState): (r: KeyOutcome)
    ensures r.stopped <==> r.command.Some?
    ensures r.command.Some? ==> r.command.value == "outdentList"
    ensures r.command.Some? <==>
      && sel.inDd && backward && sel.isCollapsed && sel.firstIsAtStart
      && sel.firstParent.name == NewItemName
      && sel.firstParent.previousSiblingName != Some(NewItemName)
  {
    if !sel.inDd then Ignored
    else if !backward then Ignored
    else if !sel.isCollapsed then Ignored
    else if !sel.firstIsAtStart then Ignored
    else if sel.firstParent.name != NewItemName then Ignored
    else if sel.firstParent.previousSiblingName.Some? && sel.firstParent.previousSiblingName.value == NewItemName then Ignored
    else KeyOutcome(Some("outdentList"), true)
  }

  /**
   * Inside a `dd` (`inDd`, as for the other two handlers), Tab indents and
   * Shift+Tab outdents, and only when that command is enabled.
   */
  function OnTab(inDd: bool, shiftKey: bool, indentEnabled: bool, outdentEnabled: bool): (r: KeyOutcome)
    ensures r.stopped <==> r.command.Some?
    ensures r.command.Some? ==> r.command.value == (if shiftKey then "outdentList" else "indentList")
    ensures r.command.Some? <==> inDd && (if shiftKey then outdentEnabled else indentEnabled)
  {
    var commandName := if shiftKey then "outdentList" else "indentList";
    var enabled := if shiftKey then outdentEnabled else indentEnabled;
    if inDd && enabled then KeyOutcome(Some(commandName), true) else Ignored
  }

  /** Outside a `dd` none of the three handlers runs, so each leaves the key to the editor. */
  lemma OutsideDdIgnored(sel: SelectionState, backward: bool, shiftKey: bool, indentEnabled: bool, outdentEnabled: bool)
    requires !sel.inDd
    ensures OnEnter(sel) == Ignored && OnDelete(backward, sel) == Ignored
    ensures OnTab(sel.inDd, shiftKey, indentEnabled, outdentEnabled) == Ignored
  {
  }

  /**
   * A collapsed selection is one position: its first and last positions share
   * their parent, and a position in an empty element is at its start.
   */
  predicate Coherent(sel: SelectionState) {
    && (sel.isCollapsed ==> sel.firstParent == sel.lastParent)
    && (sel.firstParent.isEmpty && sel.isCollapsed ==> sel.firstIsAtStart)
  }

  /**
   * In an empty list item that is the first of its list, with the view
   * selection inside a `dd`, Enter and a backward Backspace do the same
   * thing: both outdent the item. Outside a `dd` both ignore the key.
   */
  lemma EnterAndBackspaceAgreeInEmptyFirstItem(sel: SelectionState)
    requires Coherent(sel) && sel.isCollapsed
    requires sel.firstParent.name == NewItemName && sel.firstParent.isEmpty
    requires sel.firstParent.previousSiblingName != Some(NewItemName)
    ensures OnEnter(sel) == OnDelete(true, sel)
    ensures OnEnter(sel) == (if sel.inDd then KeyOutcome(Some("outdentList"), true) else Ignored)
  {
  }

  /**
   * Text inside a `dd` with a nested `dl` of two items can be walked (the
   * text is not a child of the `dl`) and stands for three model items.
   */
  lemma NestedItemLength()
    ensures var e := Element("dd", [Text("a"), Element("dl", [Element("dd", []), Element("dt", [])])]);
      Walkable(e) && LegacyEditing.GetViewListItemLength(e) == 3
  {
    var inner := Element("dl", [Element("dd", []), Element("dt", [])]);
    var e := Element("dd", [Text("a"), inner]);
    LegacyEditing.NoListChildMeansOne(Element("dd", []));
    LegacyEditing.NoListChildMeansOne(Element("dt", []));
    assert Walkable(e);
    assert LegacyEditing.MembersLength(inner, 0) == 2;
    assert LegacyEditing.ListsLength(e, 0) == 2;
  }
}
