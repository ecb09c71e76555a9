/**
 * The older `DescriptionListCommand` (src/descriptionlistcommand.js): it only
 * sets `listType` on the selected blocks. It renames nothing, never touches
 * `listIndent`, has no turn-off path and no schema filter.
 */
module LegacyCommand {
  import opened Blocks

  /** The effect of one iteration of `execute` on a selected block. */
  function SetType(b: Block, listType: string): (r: Block)
    ensures r.listType == Some(listType)
    ensures r.name == b.name && r.listIndent == b.listIndent && r.others == b.others
    ensures b.listType == Some(listType) ==> r == b
  {
    if b.name != ListItemName then b.(listType := Some(listType))
    else if b.listType != Some(listType) then b.(listType := Some(listType))
    else b
  }

  /** `execute` on the selected blocks, walked from last to first in place. */
  method Execute(blocks: array<Block>, listType: string)
    modifies blocks
    ensures forall k :: 0 <= k < blocks.Length ==> blocks[k] == SetType(old(blocks[k]), listType)
  {
    var i := blocks.Length;
    while i > 0
      invariant 0 <= i <= blocks.Length
      invariant forall k :: 0 <= k < blocks.Length ==>
        blocks[k] == if k >= i then SetType(old(blocks[k]), listType) else old(blocks[k])
    {
      i := i - 1;
      var element := blocks[i];
      if element.name != ListItemName {
        blocks[i] := element.(listType := Some(listType));
      } else if element.name == ListItemName && element.listType != Some(listType) {
        blocks[i] := element.(listType := Some(listType));
      }
    }
  }

  /** Executing twice gives the same blocks as executing once. */
  lemma ExecuteIdempotent(blocks: seq<Block>, listType: string)
    ensures forall k :: 0 <= k < |blocks| ==>
      SetType(SetType(blocks[k], listType), listType) == SetType(blocks[k], listType)
  {
  }
}
