/**
 * The paste fixer of converters.js (`modelIndentPasteFixer`): list items
 * pasted into an existing list are shifted to the depth of the list item they
 * are pasted into. The pasted content is a sequence of sibling blocks (a
 * single pasted element is a sequence of one).
 */
module PasteFixer {
  import opened Blocks

  /**
   * The first position of the selection the content goes to: its parent
   * element and the node right before it, if any.
   */
  datatype PastePosition = PastePosition(parent: Block, nodeBefore: Option<Block>)

  /** The reference list item: the parent when it is a list item, else the node before when that is one. */
  function RefItem(pos: PastePosition): (r: Option<Block>)
    ensures r.Some? <==> IsListItem(pos.parent) || (pos.nodeBefore.Some? && IsListItem(pos.nodeBefore.value))
    ensures r.Some? ==> IsListItem(r.value)
    ensures IsListItem(pos.parent) ==> r == Some(pos.parent)
  {
    if IsListItem(pos.parent) then Some(pos.parent)
    else if pos.nodeBefore.Some? && IsListItem(pos.nodeBefore.value) then pos.nodeBefore
    else None
  }

  /**
   * The indent the pasted items are shifted by: the reference item's
   * `listIndent`, or 0 when there is no reference item or it has no indent
   * (the fixer then changes nothing).
   */
  function IndentChange(pos: PastePosition): (n: nat)
    ensures n > 0 <==> RefItem(pos).Some? && RefItem(pos).value.listIndent.Some? && RefItem(pos).value.listIndent.value > 0
  {
    match RefItem(pos)
    case None => 0
    case Some(ref) => if ref.listIndent.Some? then ref.listIndent.value else 0
  }

  /** The fixer's loop from the pasted block `i` on: shift items until the first block that is not one. */
  function ShiftLoop(s: seq<Block>, i: nat, n: nat): (r: seq<Block>)
    requires i <= |s|
    ensures |r| == |s|
    decreases |s| - i
  {
    if i < |s| && IsListItem(s[i]) then
      ShiftLoop(s[i := s[i].(listIndent := Some(Indent(s[i]) + n))], i + 1, n)
    else
      s
  }

  /** `r` is `s` with `n` added to the indent of every block in `[lo, hi)`. */
  predicate Shifted(s: seq<Block>, r: seq<Block>, lo: nat, hi: nat, n: nat)
    requires |r| == |s| && lo <= hi <= |s|
  {
    && (forall k :: lo <= k < hi ==> r[k] == s[k].(listIndent := Some(Indent(s[k]) + n)))
    && (forall k :: 0 <= k < |s| && !(lo <= k < hi) ==> r[k] == s[k])
  }

  /** Shifting block `i` first extends a shift of `[i + 1, e)` to `[i, e)`. */
  lemma ShiftedStep(s: seq<Block>, s': seq<Block>, r: seq<Block>, i: nat, e: nat, n: nat)
    requires i < e <= |s| && |r| == |s|
    requires s' == s[i := s[i].(listIndent := Some(Indent(s[i]) + n))]
    requires Shifted(s', r, i + 1, e, n)
    ensures Shifted(s, r, i, e, n)
  {
    assert r[i] == s'[i];
  }

  /**
   * From block `i` on, each list item of the run gets `n` added to its
   * indent, and every other block is kept.
   */
  lemma {:induction false} ShiftLoopShifts(s: seq<Block>, i: nat, n: nat)
    requires i <= |s|
    ensures Shifted(s, ShiftLoop(s, i, n), i, RunEnd(s, i), n)
    decreases |s| - i
  {
    if i < |s| && IsListItem(s[i]) {
      var s' := s[i := s[i].(listIndent := Some(Indent(s[i]) + n))];
      var r := ShiftLoop(s', i + 1, n);
      assert r == ShiftLoop(s, i, n);
      var e := RunEnd(s, i);
      assert e == RunEnd(s, i + 1);
      RunEndSameNames(s, s', i + 1);
      ShiftLoopShifts(s', i + 1, n);
      ShiftedStep(s, s', r, i, e, n);
    }
  }

  /** One iteration of the fixer's loop, as an unfolding of `ShiftLoop`. */
  lemma ShiftLoopStep(s: seq<Block>, i: nat, n: nat)
    requires i < |s| && IsListItem(s[i])
    ensures ShiftLoop(s[i := s[i].(listIndent := Some(Indent(s[i]) + n))], i + 1, n) == ShiftLoop(s, i, n)
  {
  }

  /**
   * The pasted content after the fixer. When it acts, every item of the
   * leading run of the content gets the reference indent added and the rest
   * of the content is left as it is; only `listIndent` ever changes.
   */
  function PasteFix(content: seq<Block>, pos: PastePosition): (r: seq<Block>)
    ensures |r| == |content|
    ensures |content| > 0 && IsListItem(content[0]) && IndentChange(pos) > 0 ==>
      && (forall k :: 0 <= k < RunEnd(content, 0) ==> Indent(r[k]) == Indent(content[k]) + IndentChange(pos))
      && (forall k :: RunEnd(content, 0) <= k < |content| ==> r[k] == content[k])
    ensures !(|content| > 0 && IsListItem(content[0]) && IndentChange(pos) > 0) ==> r == content
    ensures forall k :: 0 <= k < |content| ==>
      r[k].name == content[k].name && r[k].listType == content[k].listType && r[k].others == content[k].others
    ensures WellFormed(content) ==> WellFormed(r)
  {
    if |content| > 0 && IsListItem(content[0]) && IndentChange(pos) > 0 then
      ShiftLoopShifts(content, 0, IndentChange(pos));
      ShiftLoop(content, 0, IndentChange(pos))
    else
      content
  }

  /** The fixer changes the content exactly when it starts with a list item and the reference indent is positive. */
  lemma PasteFixChangesIff(content: seq<Block>, pos: PastePosition)
    ensures PasteFix(content, pos) != content <==>
      |content| > 0 && IsListItem(content[0]) && IndentChange(pos) > 0
  {
    if |content| > 0 && IsListItem(content[0]) && IndentChange(pos) > 0 {
      assert PasteFix(content, pos)[0].listIndent != content[0].listIndent;
    }
  }

  /**
   * Pasted items that form a well-indented list of their own keep their
   * relative depths and start at the reference item's depth, so they follow
   * the reference item without an indent gap.
   */
  lemma PasteFitsUnderReference(content: seq<Block>, pos: PastePosition)
    requires |content| > 0 && IsListItem(content[0]) && IndentChange(pos) > 0
    requires PastedWellIndented(content)
    ensures var r := PasteFix(content, pos);
      && Indent(r[0]) == IndentChange(pos)
      && forall k :: 0 < k < RunEnd(content, 0) ==> Indent(r[k]) <= Indent(r[k - 1]) + 1
  {
    var r := PasteFix(content, pos);
    var e := RunEnd(content, 0);
    var n := IndentChange(pos);
    assert forall k :: 0 <= k < e ==> Indent(r[k]) == Indent(content[k]) + n;
    assert 0 < e;
  }

  /** The leading run of the content starts at indent 0 and deepens by at most one level per item. */
  predicate PastedWellIndented(s: seq<Block>) {
    && (RunEnd(s, 0) > 0 ==> Indent(s[0]) == 0)
    && forall k :: 0 < k < RunEnd(s, 0) ==> Indent(s[k]) <= Indent(s[k - 1]) + 1
  }

  /** `modelIndentPasteFixer` on the pasted blocks, changed in place. */
  method ModelIndentPasteFixer(content: array<Block>, pos: PastePosition)
    modifies content
    ensures content[..] == PasteFix(old(content[..]), pos)
  {
    if content.Length > 0 && IsListItem(content[0]) {
      var refItem: Option<Block> := None;
      if IsListItem(pos.parent) {
        refItem := Some(pos.parent);
      } else if pos.nodeBefore.Some? && IsListItem(pos.nodeBefore.value) {
        refItem := pos.nodeBefore;
      }
      assert refItem == RefItem(pos);
      if refItem.Some? {
        var indentChange: nat := if refItem.value.listIndent.Some? then refItem.value.listIndent.value else 0;
        assert indentChange == IndentChange(pos);
        if indentChange > 0 {
          ShiftLeadingItems(content, indentChange);
        }
      }
    }
  }

  /** The fixer's loop: every leading list item of the content gets `indentChange` added. */
  method ShiftLeadingItems(content: array<Block>, indentChange: nat)
    modifies content
    ensures content[..] == ShiftLoop(old(content[..]), 0, indentChange)
  {
    var i := 0;
    while i < content.Length && IsListItem(content[i])
      invariant 0 <= i <= content.Length
      invariant ShiftLoop(content[..], i, indentChange) == ShiftLoop(old(content[..]), 0, indentChange)
    {
      ghost var before := content[..];
      content[i] := content[i].(listIndent := Some(Indent(content[i]) + indentChange));
      assert content[..] == before[i := before[i].(listIndent := Some(Indent(before[i]) + indentChange))];
      ShiftLoopStep(before, i, indentChange);
      i := i + 1;
    }
    assert ShiftLoop(content[..], i, indentChange) == content[..];
  }

  function Item(indent: nat): Block {
    Block(ListItemName, Some("dl"), Some(indent), map[])
  }

  /** Items pasted after a top-level item keep their indents. */
  lemma PasteAfterTopLevelItem()
    ensures PasteFix([Item(0), Item(1)], PastePosition(Block("$root", None, None, map[]), Some(Item(0))))
      == [Item(0), Item(1)]
  {
  }

  /** Items 0 and 1 pasted inside an item at indent 2 become 2 and 3. */
  lemma PasteInsideNestedItem()
    ensures PasteFix([Item(0), Item(1)], PastePosition(Item(2), None)) == [Item(2), Item(3)]
  {
    var r := PasteFix([Item(0), Item(1)], PastePosition(Item(2), None));
    assert RunEnd([Item(0), Item(1)], 0) == 2;
    assert r[0] == Item(2) && r[1] == Item(3);
  }
}
