/**
 * The flat model: a document is a sibling sequence of blocks, and a list item
 * is a block whose name marks it as one and which carries `listType` and
 * `listIndent` attributes.
 */
module Blocks {

  datatype Option<T> = None | Some(value: T)

  /**
   * A model element as the converters see it. `listType` and `listIndent` are
   * the list attributes; every other attribute (among them `listStyle`,
   * `listReversed` and `listStart`) sits in `others`, keyed by name.
   */
  datatype Block = Block(
    name: string,
    listType: Option<string>,
    listIndent: Option<nat>,
    others: map<string, string>)

  /** The list item element name used by converters.js and the older plugin. */
  const ListItemName: string := "descriptionListItem"

  const TextName: string := "$text"

  predicate IsListItem(b: Block) {
    b.name == ListItemName
  }

  /** The `listIndent` value of a block (0 when the attribute is absent). */
  function Indent(b: Block): nat {
    if b.listIndent.Some? then b.listIndent.value else 0
  }

  /** JavaScript truthiness of an attribute value that may be absent. */
  predicate Truthy(t: Option<string>) {
    t.Some? && t.value != ""
  }

  /** Every list item of the sequence carries a `listIndent` attribute. */
  predicate WellFormed(s: seq<Block>) {
    forall i :: 0 <= i < |s| && IsListItem(s[i]) ==> s[i].listIndent.Some?
  }

  /**
   * The end of the contiguous run of list items that starts at `i`: the first
   * index at or after `i` that is not a list item.
   */
  function RunEnd(s: seq<Block>, i: nat): (e: nat)
    requires i <= |s|
    ensures i <= e <= |s|
    ensures forall j :: i <= j < e ==> IsListItem(s[j])
    ensures e < |s| ==> !IsListItem(s[e])
    decreases |s| - i
  {
    if i < |s| && IsListItem(s[i]) then RunEnd(s, i + 1) else i
  }

  /** `h` is the first item of a run (no list item right before it). */
  predicate IsRunHead(s: seq<Block>, h: nat) {
    h < |s| && IsListItem(s[h]) && (h == 0 || !IsListItem(s[h - 1]))
  }

  /** The head of the run that contains the list item at `k`. */
  function RunHead(s: seq<Block>, k: nat): (h: nat)
    requires k < |s| && IsListItem(s[k])
    ensures h <= k && IsRunHead(s, h)
    ensures forall j :: h <= j <= k ==> IsListItem(s[j])
  {
    if k > 0 && IsListItem(s[k - 1]) then RunHead(s, k - 1) else k
  }

  /** Two sequences with the same element names have the same runs. */
  lemma {:induction false} RunEndSameNames(s: seq<Block>, t: seq<Block>, i: nat)
    requires |s| == |t| && i <= |s|
    requires forall k :: 0 <= k < |s| ==> s[k].name == t[k].name
    ensures RunEnd(s, i) == RunEnd(t, i)
    decreases |s| - i
  {
    if i < |s| && IsListItem(s[i]) {
      RunEndSameNames(s, t, i + 1);
    }
  }
}
