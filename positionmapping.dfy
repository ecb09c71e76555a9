/**
 * The offset arithmetic of `viewToModelPosition` in converters.js: view
 * positions next to `dl` elements are mapped to model positions counted in
 * model list items. The host mapper's two lookups are parameters.
 */
module PositionMapping {
  import opened Blocks
  import opened ViewTree

  /** A view position: its parent (absent for a detached one) and its offset in it. */
  datatype ViewPosition = ViewPosition(parent: Option<ViewNode>, offset: nat)

  /** A model position: an identifier of its parent element and its offset in it. */
  datatype ModelPosition = ModelPosition(parent: nat, offset: nat)

  /**
   * What the callback does: leaves the position to other callbacks, sets a
   * model position (and stops the event), or asks the host for a node that is
   * not there, where the source would throw.
   */
  datatype Mapping = NotHandled | Mapped(position: ModelPosition) | Unmapped

  /** The offset of a position inside an element lies within its children. */
  predicate ValidPosition(p: ViewPosition) {
    p.parent.Some? && p.parent.value.Element? ==> p.offset <= |p.parent.value.children|
  }

  /**
   * The summed model lengths of the contiguous `dl` siblings right before
   * child `k`, walking back through `previousSibling`.
   */
  function PrecedingListsLength(cs: seq<ViewNode>, k: nat, modelLength: ViewNode -> nat): nat
    requires k <= |cs|
  {
    if k == 0 || !IsList(cs[k - 1]) then 0
    else modelLength(cs[k - 1]) + PrecedingListsLength(cs, k - 1, modelLength)
  }

  /** The mapped position shifted forward by `n`, or `Unmapped` when the node had no position. */
  function Shift(p: Option<ModelPosition>, n: nat): Mapping {
    if p.Some? then Mapped(ModelPosition(p.value.parent, p.value.offset + n)) else Unmapped
  }

  /** A `dd` or `dt` element. */
  predicate IsItemElement(n: ViewNode) {
    n.Element? && (n.name == "dd" || n.name == "dt")
  }

  /**
   * `viewToModelPosition`. `positionBefore` is the host's `toModelElement`
   * followed by `createPositionBefore` (`None` when the view node is not
   * mapped); `modelLength` is the host's `getModelLength`. In a `dl` the
   * position maps to the one before the node after it, or, at the end, past
   * the model length of the last node; in a `dd` or `dt` right after a run of
   * lists it maps past the item and every model item of those lists; every
   * other position is left to other callbacks.
   */
  function ViewToModelPosition(
    pos: ViewPosition, positionBefore: ViewNode -> Option<ModelPosition>, modelLength: ViewNode -> nat): (r: Mapping)
    requires ValidPosition(pos)
    ensures pos.parent.None? ==> r == NotHandled
    ensures pos.parent.Some? && IsList(pos.parent.value) ==>
      var cs := ChildrenOf(pos.parent.value);
      && (pos.offset < |cs| ==> r == Shift(positionBefore(cs[pos.offset]), 0))
      && (0 < pos.offset == |cs| ==> r == Shift(positionBefore(cs[pos.offset - 1]), modelLength(cs[pos.offset - 1])))
      && (|cs| == 0 ==> r == Unmapped)
    ensures pos.parent.Some? && IsItemElement(pos.parent.value) ==>
      var cs := ChildrenOf(pos.parent.value);
      0 < pos.offset && IsList(cs[pos.offset - 1]) ==>
      r == Shift(positionBefore(pos.parent.value),
        1 + SumLengths(cs[ListRunStart(cs, pos.offset)..pos.offset], modelLength))
    ensures pos.parent.Some? && !IsList(pos.parent.value) ==>
      var cs := ChildrenOf(pos.parent.value);
      !(IsItemElement(pos.parent.value) && 0 < pos.offset && IsList(cs[pos.offset - 1])) ==> r == NotHandled
  {
    if pos.parent.None? then NotHandled
    else
      var parent := pos.parent.value;
      var cs := ChildrenOf(parent);
      if parent.Element? && parent.name == "dl" then
        if pos.offset < |cs| then
          match positionBefore(cs[pos.offset])
          case None => Unmapped
          case Some(p) => Mapped(p)
        else if pos.offset == 0 then Unmapped
        else
          match positionBefore(cs[pos.offset - 1])
          case None => Unmapped
          case Some(p) => Mapped(ModelPosition(p.parent, p.offset + modelLength(cs[pos.offset - 1])))
      else if parent.Element? && (parent.name == "dd" || parent.name == "dt")
        && pos.offset > 0 && IsList(cs[pos.offset - 1]) then
        PrecedingIsRunSum(cs, pos.offset, modelLength);
        match positionBefore(parent)
        case None => Unmapped
        case Some(p) => Mapped(ModelPosition(p.parent, p.offset + 1 + PrecedingListsLength(cs, pos.offset, modelLength)))
      else NotHandled
  }

  /** The `while` loop of the `dd`/`dt` branch: 1 plus the lengths of the lists before child `k`. */
  method PrecedingModelLength(cs: seq<ViewNode>, k: nat, modelLength: ViewNode -> nat) returns (length: nat)
    requires k <= |cs|
    ensures length == 1 + PrecedingListsLength(cs, k, modelLength)
  {
    length := 1;
    var viewList := k;
    while viewList > 0 && IsList(cs[viewList - 1])
      invariant 0 <= viewList <= k
      invariant length + PrecedingListsLength(cs, viewList, modelLength) == 1 + PrecedingListsLength(cs, k, modelLength)
    {
      length := length + modelLength(cs[viewList - 1]);
      viewList := viewList - 1;
    }
  }

  /** `viewToModelPosition` as the callback computes it. */
  method MapViewToModel(
    pos: ViewPosition, positionBefore: ViewNode -> Option<ModelPosition>, modelLength: ViewNode -> nat)
    returns (r: Mapping)
    requires ValidPosition(pos)
    ensures r == ViewToModelPosition(pos, positionBefore, modelLength)
  {
    if pos.parent.None? {
      return NotHandled;
    }
    var viewParent := pos.parent.value;
    var cs := ChildrenOf(viewParent);
    if viewParent.Element? && viewParent.name == "dl" {
      if pos.offset < |cs| {
        var modelNode := positionBefore(cs[pos.offset]);
        r := if modelNode.Some? then Mapped(modelNode.value) else Unmapped;
      } else if pos.offset == 0 {
        r := Unmapped;
      } else {
        var modelNode := positionBefore(cs[pos.offset - 1]);
        var length := modelLength(cs[pos.offset - 1]);
        r := if modelNode.Some? then Mapped(ModelPosition(modelNode.value.parent, modelNode.value.offset + length))
          else Unmapped;
      }
    } else if viewParent.Element? && (viewParent.name == "dd" || viewParent.name == "dt")
      && pos.offset > 0 && IsList(cs[pos.offset - 1]) {
      var modelNode := positionBefore(viewParent);
      var length := PrecedingModelLength(cs, pos.offset, modelLength);
      r := if modelNode.Some? then Mapped(ModelPosition(modelNode.value.parent, modelNode.value.offset + length))
        else Unmapped;
    } else {
      r := NotHandled;
    }
  }

  /** Total model length of a sequence of view nodes. */
  function SumLengths(xs: seq<ViewNode>, modelLength: ViewNode -> nat): nat {
    if xs == [] then 0 else SumLengths(xs[..|xs| - 1], modelLength) + modelLength(xs[|xs| - 1])
  }

  /** Start of the contiguous run of `dl` siblings that ends right before child `k`. */
  function ListRunStart(cs: seq<ViewNode>, k: nat): (s: nat)
    requires k <= |cs|
    ensures s <= k
    ensures forall j :: s <= j < k ==> IsList(cs[j])
    ensures s == 0 || !IsList(cs[s - 1])
  {
    if k == 0 || !IsList(cs[k - 1]) then k else ListRunStart(cs, k - 1)
  }

  /**
   * The loop's total is the summed model length of the whole run of lists
   * right before the position, and no other sibling contributes.
   */
  lemma {:induction false} PrecedingIsRunSum(cs: seq<ViewNode>, k: nat, modelLength: ViewNode -> nat)
    requires k <= |cs|
    ensures PrecedingListsLength(cs, k, modelLength) == SumLengths(cs[ListRunStart(cs, k)..k], modelLength)
  {
    if k > 0 && IsList(cs[k - 1]) {
      PrecedingIsRunSum(cs, k - 1, modelLength);
      var s := ListRunStart(cs, k);
      assert cs[s..k][..k - s - 1] == cs[s..k - 1];
    }
  }

  /**
   * Right after `n` lists in a `dd`/`dt`, with every list counting at least
   * one model item, the model position lies at least `n + 1` items past the
   * mapped item.
   */
  lemma {:induction false} ShiftCountsEveryList(cs: seq<ViewNode>, k: nat, modelLength: ViewNode -> nat)
    requires k <= |cs| && forall j :: 0 <= j < |cs| ==> modelLength(cs[j]) >= 1
    ensures PrecedingListsLength(cs, k, modelLength) >= k - ListRunStart(cs, k)
  {
    if k > 0 && IsList(cs[k - 1]) {
      ShiftCountsEveryList(cs, k - 1, modelLength);
    }
  }

  /** A position inside a text node or an unrelated element is left to other callbacks. */
  lemma OtherParentsNotHandled(
    pos: ViewPosition, positionBefore: ViewNode -> Option<ModelPosition>, modelLength: ViewNode -> nat)
    requires ValidPosition(pos) && pos.parent.Some?
    requires pos.parent.value.Text? || pos.parent.value.name !in {"dl", "dd", "dt"}
    ensures ViewToModelPosition(pos, positionBefore, modelLength) == NotHandled
  {
  }
}
