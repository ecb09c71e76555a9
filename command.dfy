/**
 * The newer `DescriptionListCommand` (src/descriptionlist/descriptionlistcommand.js):
 * toggling selected blocks between paragraphs and `descriptionlistItem`
 * elements of the command's type, and the `value` and `isEnabled` rules.
 */
module Command {
  import opened Blocks

  const NewItemName: string := "descriptionlistItem"
  const ParagraphName: string := "paragraph"

  /**
   * A selected block together with what the schema says about it: whether
   * its parent allows a `descriptionlistItem` child and whether it is an
   * object.
   */
  datatype Selected = Selected(block: Block, parentAllowsItem: bool, isObject: bool)

  /** `checkCanBecomeListItem`. */
  predicate CanBecomeListItem(b: Selected) {
    b.parentAllowsItem && !b.isObject
  }

  /** `turnOff`: the negated forced value when one is given, else the command's value. */
  function TurnOff(forceValue: Option<bool>, value: bool): bool {
    if forceValue.Some? then !forceValue.value else value
  }

  /** The effect of one iteration of `execute` on an eligible block. */
  function Toggle(b: Block, listType: string, turnOff: bool): (r: Block)
    ensures turnOff && b.name == NewItemName ==> r == b.(name := ParagraphName)
    ensures b.name != NewItemName ==>
      r == b.(name := NewItemName, listType := Some(listType), listIndent := Some(0))
    ensures !turnOff && b.name == NewItemName ==> r == b.(listType := Some(listType))
  {
    if turnOff && b.name == NewItemName then b.(name := ParagraphName)
    else if b.name != NewItemName then b.(listType := Some(listType), listIndent := Some(0), name := NewItemName)
    else if b.listType != Some(listType) then b.(listType := Some(listType))
    else b
  }

  /** `execute` on the selected blocks: eligible blocks are toggled, the others stay as they are. */
  function ExecuteAll(blocks: seq<Selected>, listType: string, turnOff: bool): (r: seq<Selected>)
    ensures |r| == |blocks|
    ensures forall i :: 0 <= i < |blocks| ==>
      r[i] == if CanBecomeListItem(blocks[i]) then blocks[i].(block := Toggle(blocks[i].block, listType, turnOff)) else blocks[i]
  {
    seq(|blocks|, i requires 0 <= i < |blocks| =>
      if CanBecomeListItem(blocks[i]) then blocks[i].(block := Toggle(blocks[i].block, listType, turnOff)) else blocks[i])
  }

  /** `_getValue`: the first selected block is a list item of this type. */
  function GetValue(blocks: seq<Selected>, listType: string): bool {
    |blocks| > 0 && blocks[0].block.name == NewItemName && blocks[0].block.listType == Some(listType)
  }

  /** `_checkEnabled`. */
  function CheckEnabled(value: bool, blocks: seq<Selected>): bool {
    if value then true
    else if |blocks| == 0 then false
    else CanBecomeListItem(blocks[0])
  }

  class DescriptionListCommand {
    const listType: string
    var value: bool
    var isEnabled: bool

    constructor (listType: string)
      ensures this.listType == listType && !value && !isEnabled
    {
      this.listType := listType;
      value := false;
      isEnabled := false;
    }

    /** `refresh`: recompute `value` and `isEnabled` from the selected blocks. */
    method Refresh(blocks: seq<Selected>)
      modifies this
      ensures value == GetValue(blocks, listType)
      ensures isEnabled == CheckEnabled(value, blocks)
    {
      value := GetValue(blocks, listType);
      isEnabled := CheckEnabled(value, blocks);
    }

    /**
     * `execute`: filters the selected blocks by eligibility, then walks them
     * from last to first, renaming and setting attributes in place.
     */
    method Execute(blocks: array<Selected>, forceValue: Option<bool>)
      modifies blocks
      ensures blocks[..] == ExecuteAll(old(blocks[..]), listType, TurnOff(forceValue, value))
    {
      var eligible := EligibleIndices(blocks[..]);
      var turnOff := if forceValue.Some? then !forceValue.value else value;
      var j := |eligible|;
      while j > 0
        invariant 0 <= j <= |eligible|
        invariant forall x :: x in eligible ==> x < blocks.Length
        invariant forall k :: 0 <= k < blocks.Length ==>
          blocks[k] == if k in eligible[j..] then old(blocks[k]).(block := Toggle(old(blocks[k]).block, listType, turnOff))
            else old(blocks[k])
      {
        j := j - 1;
        var k := eligible[j];
        assert k in eligible;
        var element := blocks[k].block;
        if turnOff && element.name == NewItemName {
          element := element.(name := ParagraphName);
        } else if element.name != NewItemName {
          element := element.(listType := Some(listType), listIndent := Some(0));
          element := element.(name := NewItemName);
        } else if element.name == NewItemName && element.listType != Some(listType) {
          element := element.(listType := Some(listType));
        }
        blocks[k] := blocks[k].(block := element);
        assert eligible[j..] == [k] + eligible[j + 1..];
      }
      assert eligible[0..] == eligible;
    }
  }

  /** The positions of the eligible blocks, in selection order. */
  function EligibleIndices(blocks: seq<Selected>): (r: seq<nat>)
    ensures forall k :: k in r <==> 0 <= k < |blocks| && CanBecomeListItem(blocks[k])
    ensures forall a, b :: 0 <= a < b < |r| ==> r[a] < r[b]
  {
    if blocks == [] then []
    else
      var rest := EligibleIndices(blocks[..|blocks| - 1]);
      assert forall a :: 0 <= a < |rest| ==> rest[a] in rest;
      if CanBecomeListItem(blocks[|blocks| - 1]) then rest + [|blocks| - 1] else rest
  }

  /**
   * After `refresh` the command is enabled exactly when some block is
   * selected and the first one is either a list item of this type or can
   * become a list item; a command whose value is true is always enabled.
   */
  lemma EnabledAfterRefresh(blocks: seq<Selected>, listType: string)
    ensures CheckEnabled(GetValue(blocks, listType), blocks) <==>
      |blocks| > 0 && (GetValue(blocks, listType) || CanBecomeListItem(blocks[0]))
    ensures GetValue(blocks, listType) ==> CheckEnabled(GetValue(blocks, listType), blocks)
    ensures GetValue(blocks, listType) <==>
      |blocks| > 0 && blocks[0].block.name == NewItemName && blocks[0].block.listType == Some(listType)
  {
  }

  /** Turning on makes every eligible block a list item of the command's type. */
  lemma TurnOnMakesItems(blocks: seq<Selected>, listType: string)
    ensures forall i :: 0 <= i < |blocks| && CanBecomeListItem(blocks[i]) ==>
      ExecuteAll(blocks, listType, false)[i].block.name == NewItemName
      && ExecuteAll(blocks, listType, false)[i].block.listType == Some(listType)
  {
  }

  /** After turning on a selection whose first block is eligible, the command's value is true. */
  lemma TurnOnSetsValue(blocks: seq<Selected>, listType: string)
    requires |blocks| > 0 && CanBecomeListItem(blocks[0])
    ensures GetValue(ExecuteAll(blocks, listType, false), listType)
  {
  }

  /** Turning on twice is turning on once. */
  lemma TurnOnIdempotent(b: Block, listType: string)
    ensures Toggle(Toggle(b, listType, false), listType, false) == Toggle(b, listType, false)
  {
  }

  /**
   * Turning a paragraph on and off again gives the paragraph back except for
   * the list attributes it picked up, which the command leaves for the list
   * post-fixer to remove.
   */
  lemma ToggleRoundTrip(p: Block, listType: string)
    requires p.name == ParagraphName && p.listType.None? && p.listIndent.None?
    ensures Toggle(Toggle(p, listType, false), listType, true)
      == p.(listType := Some(listType), listIndent := Some(0))
  {
  }

  /**
   * A value-less turn-off still converts a plain paragraph into a list item:
   * the non-item branch does not look at `turnOff`.
   */
  lemma TurnOffConvertsParagraphs(p: Block, listType: string)
    requires p.name == ParagraphName
    ensures Toggle(p, listType, true).name == NewItemName
  {
  }

  /**
   * Toggling `dt` on a paragraph and a `dd` item (both eligible) converts the
   * paragraph to a `dt` item at indent 0 and overwrites the item's type.
   */
  lemma ToggleParagraphAndItem()
    ensures var p := Block(ParagraphName, None, None, map[]);
      var item := Block(NewItemName, Some("dd"), Some(0), map[]);
      ExecuteAll([Selected(p, true, false), Selected(item, true, false)], "dt", false)
        == [Selected(Block(NewItemName, Some("dt"), Some(0), map[]), true, false),
            Selected(Block(NewItemName, Some("dt"), Some(0), map[]), true, false)]
  {
    var p := Block(ParagraphName, None, None, map[]);
    var item := Block(NewItemName, Some("dd"), Some(0), map[]);
    var r := ExecuteAll([Selected(p, true, false), Selected(item, true, false)], "dt", false);
    assert r[0] == Selected(Block(NewItemName, Some("dt"), Some(0), map[]), true, false);
    assert r[1] == Selected(Block(NewItemName, Some("dt"), Some(0), map[]), true, false);
  }
}
