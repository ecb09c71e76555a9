/**
 * The upcast helpers of converters.js: the indent of a view list item
 * computed from its ancestors (`getIndent`), and the two cleaners that drop
 * unwanted children of `dl` and list item elements (`cleanList`,
 * `cleanListItem`).
 */
module Upcast {
  import opened Blocks
  import opened ViewTree

  /**
   * One ancestor of a view list item, nearest first: its element name (`None`
   * for a node that is not an element, such as a document fragment) and its
   * previous sibling, if any.
   */
  datatype Ancestor = Ancestor(element: Option<string>, previousSibling: Option<ViewNode>)

  /** The ancestor is a `dd` or `dt` element: a list item of an HTML-compliant list. */
  predicate IsItemAncestor(a: Ancestor) {
    a.element == Some("dd") || a.element == Some("dt")
  }

  /** Any other ancestor that follows a `dd` sibling: a list nested after an item. */
  predicate FollowsItem(a: Ancestor) {
    !IsItemAncestor(a) && a.previousSibling.Some? && IsDd(a.previousSibling.value)
  }

  /** The number of `dd`/`dt` ancestors from position `i` of the chain on. */
  function CountItemAncestors(chain: seq<Ancestor>, i: nat): (n: nat)
    requires i <= |chain|
    ensures n <= |chain| - i
    decreases |chain| - i
  {
    if i == |chain| then 0
    else (if IsItemAncestor(chain[i]) then 1 else 0) + CountItemAncestors(chain, i + 1)
  }

  /** The number of other ancestors right after a `dd` sibling, from position `i` on. */
  function CountFollowingItem(chain: seq<Ancestor>, i: nat): (n: nat)
    requires i <= |chain|
    ensures n + CountItemAncestors(chain, i) <= |chain| - i
    decreases |chain| - i
  {
    if i == |chain| then 0
    else (if FollowsItem(chain[i]) then 1 else 0) + CountFollowingItem(chain, i + 1)
  }

  /**
   * `getIndent`: climbs the ancestors counting every `dd`/`dt` and every
   * other ancestor whose previous sibling is a `dd`.
   */
  method GetIndent(chain: seq<Ancestor>) returns (indent: nat)
    ensures indent == CountItemAncestors(chain, 0) + CountFollowingItem(chain, 0)
    ensures indent <= |chain|
  {
    indent := 0;
    var i := 0;
    while i < |chain|
      invariant 0 <= i <= |chain|
      invariant indent + CountItemAncestors(chain, i) + CountFollowingItem(chain, i)
        == CountItemAncestors(chain, 0) + CountFollowingItem(chain, 0)
    {
      var parent := chain[i];
      if parent.element == Some("dd") || parent.element == Some("dt") {
        indent := indent + 1;
      } else {
        var previousSibling := parent.previousSibling;
        if previousSibling.Some? && IsDd(previousSibling.value) {
          indent := indent + 1;
        }
      }
      i := i + 1;
    }
  }

  /** Ancestors that are neither items nor right after a `dd` add nothing to the indent. */
  lemma {:induction false} BareListsAddNothing(chain: seq<Ancestor>, i: nat)
    requires i <= |chain|
    requires forall k :: i <= k < |chain| ==> !IsItemAncestor(chain[k]) && !FollowsItem(chain[k])
    ensures CountItemAncestors(chain, i) + CountFollowingItem(chain, i) == 0
    decreases |chain| - i
  {
    if i < |chain| {
      BareListsAddNothing(chain, i + 1);
    }
  }

  const Dd: ViewNode := Element("dd", [])
  const Dl: Option<string> := Some("dl")

  /** The indent `GetIndent` computes for an ancestor chain. */
  function Depth(chain: seq<Ancestor>): nat {
    CountItemAncestors(chain, 0) + CountFollowingItem(chain, 0)
  }

  /**
   * The three normalisations the source documents: an item under a `dd`
   * through a stack of four bare lists has indent 1; an item under four bare
   * lists only has indent 0; an item in a list that follows a `dd` has
   * indent 1.
   */
  lemma GetIndentExamples()
    ensures Depth([Ancestor(Dl, None), Ancestor(Dl, None), Ancestor(Dl, None), Ancestor(Dl, Some(Text("x"))),
      Ancestor(Some("dd"), None), Ancestor(Dl, None), Ancestor(None, None)]) == 1
    ensures Depth([Ancestor(Dl, None), Ancestor(Dl, None), Ancestor(Dl, None), Ancestor(Dl, None),
      Ancestor(None, None)]) == 0
    ensures Depth([Ancestor(Dl, Some(Dd)), Ancestor(Dl, None), Ancestor(None, None)]) == 1
  {
    var c1 := [Ancestor(Dl, None), Ancestor(Dl, None), Ancestor(Dl, None), Ancestor(Dl, Some(Text("x"))),
      Ancestor(Some("dd"), None), Ancestor(Dl, None), Ancestor(None, None)];
    BareListsAddNothing(c1, 5);
    assert CountItemAncestors(c1, 4) == 1 && CountFollowingItem(c1, 4) == 0;
    assert CountItemAncestors(c1, 3) == 1 && CountFollowingItem(c1, 3) == 0;
    assert CountItemAncestors(c1, 2) == 1 && CountFollowingItem(c1, 2) == 0;
    assert CountItemAncestors(c1, 1) == 1 && CountFollowingItem(c1, 1) == 0;
    BareListsAddNothing([Ancestor(Dl, None), Ancestor(Dl, None), Ancestor(Dl, None), Ancestor(Dl, None),
      Ancestor(None, None)], 0);
    var c3 := [Ancestor(Dl, Some(Dd)), Ancestor(Dl, None), Ancestor(None, None)];
    BareListsAddNothing(c3, 1);
  }

  /** The children `cleanList` keeps: `dd` elements and lists, in their order. */
  function ListKept(cs: seq<ViewNode>): (r: seq<ViewNode>)
    ensures |r| <= |cs|
  {
    if cs == [] then []
    else if IsDd(cs[0]) || IsList(cs[0]) then [cs[0]] + ListKept(cs[1..])
    else ListKept(cs[1..])
  }

  /** Only lists, in their order. */
  function OnlyLists(cs: seq<ViewNode>): (r: seq<ViewNode>)
    ensures |r| <= |cs|
  {
    if cs == [] then []
    else if IsList(cs[0]) then [cs[0]] + OnlyLists(cs[1..])
    else OnlyLists(cs[1..])
  }

  /**
   * The children `cleanListItem` keeps: every child up to and including the
   * first list, then lists only.
   */
  function ItemKept(cs: seq<ViewNode>): (r: seq<ViewNode>)
    ensures |r| <= |cs|
  {
    if cs == [] then []
    else if IsList(cs[0]) then [cs[0]] + OnlyLists(cs[1..])
    else [cs[0]] + ItemKept(cs[1..])
  }

  /** Index of the first list among `cs`, or `|cs|` when there is none. */
  function FirstList(cs: seq<ViewNode>): (f: nat)
    ensures f <= |cs|
    ensures forall k :: 0 <= k < f ==> !IsList(cs[k])
    ensures f < |cs| ==> IsList(cs[f])
  {
    if cs == [] || IsList(cs[0]) then 0 else 1 + FirstList(cs[1..])
  }

  /** `cleanListItem`'s result in closed form: the prefix through the first list, then the later lists. */
  lemma {:induction false} ItemKeptSplit(cs: seq<ViewNode>)
    ensures FirstList(cs) < |cs| ==> ItemKept(cs) == cs[..FirstList(cs) + 1] + OnlyLists(cs[FirstList(cs) + 1..])
    ensures FirstList(cs) == |cs| ==> ItemKept(cs) == cs
  {
    if cs != [] && !IsList(cs[0]) {
      var t := cs[1..];
      ItemKeptSplit(t);
      assert FirstList(cs) == FirstList(t) + 1;
      assert ItemKept(cs) == [cs[0]] + ItemKept(t);
      if FirstList(t) < |t| {
        assert [cs[0]] + t[..FirstList(t) + 1] == cs[..FirstList(cs) + 1];
        assert t[FirstList(t) + 1..] == cs[FirstList(cs) + 1..];
      } else {
        assert [cs[0]] + t == cs;
      }
    }
  }

  /** `cleanList` keeps exactly the `dd` and `dl` children. */
  lemma {:induction false} ListKeptMembers(cs: seq<ViewNode>)
    ensures forall c :: c in ListKept(cs) <==> c in cs && (IsDd(c) || IsList(c))
  {
    if cs != [] {
      ListKeptMembers(cs[1..]);
      assert cs == [cs[0]] + cs[1..];
    }
  }

  /** After the first list, `cleanListItem` keeps exactly the lists. */
  lemma {:induction false} OnlyListsMembers(cs: seq<ViewNode>)
    ensures forall c :: c in OnlyLists(cs) <==> c in cs && IsList(c)
  {
    if cs != [] {
      OnlyListsMembers(cs[1..]);
      assert cs == [cs[0]] + cs[1..];
    }
  }

  lemma {:induction false} OnlyListsIdempotent(cs: seq<ViewNode>)
    ensures OnlyLists(OnlyLists(cs)) == OnlyLists(cs)
  {
    if cs != [] {
      var t := OnlyLists(cs[1..]);
      OnlyListsIdempotent(cs[1..]);
      if IsList(cs[0]) {
        var r := [cs[0]] + t;
        assert r[0] == cs[0] && r[1..] == t;
        assert OnlyLists(r) == [r[0]] + OnlyLists(r[1..]);
      }
    }
  }

  lemma {:induction false} ListKeptIdempotent(cs: seq<ViewNode>)
    ensures ListKept(ListKept(cs)) == ListKept(cs)
  {
    if cs != [] {
      var t := ListKept(cs[1..]);
      ListKeptIdempotent(cs[1..]);
      if IsDd(cs[0]) || IsList(cs[0]) {
        var r := [cs[0]] + t;
        assert r[0] == cs[0] && r[1..] == t;
        assert ListKept(r) == [r[0]] + ListKept(r[1..]);
      }
    }
  }

  /** Cleaning a list item twice is cleaning it once. */
  lemma {:induction false} ItemKeptIdempotent(cs: seq<ViewNode>)
    ensures ItemKept(ItemKept(cs)) == ItemKept(cs)
  {
    if cs != [] {
      var r := ItemKept(cs);
      if IsList(cs[0]) {
        assert r[0] == cs[0] && r[1..] == OnlyLists(cs[1..]);
        OnlyListsIdempotent(cs[1..]);
      } else {
        assert r[0] == cs[0] && r[1..] == ItemKept(cs[1..]);
        ItemKeptIdempotent(cs[1..]);
      }
    }
  }

  /** A view element whose children the cleaners remove in place. */
  class ViewElement {
    const name: string
    var children: seq<ViewNode>

    constructor (name: string, children: seq<ViewNode>)
      ensures this.name == name && this.children == children
    {
      this.name := name;
      this.children := children;
    }

    /** Removes the child at `k` of the live children. */
    method RemoveChild(k: nat)
      requires k < |children|
      modifies this
      ensures children == old(children[..k] + children[k + 1..])
    {
      children := children[..k] + children[k + 1..];
    }

    /**
     * `cleanList` on this `dl`: when the element's name is still consumable,
     * every child that is neither a `dd` nor a list is removed.
     */
    method CleanList(consumable: bool)
      modifies this
      ensures children == if consumable then ListKept(old(children)) else old(children)
    {
      if consumable {
        var cached := children;
        var kept := 0;
        for i := 0 to |cached|
          invariant kept <= |children|
          invariant children[..kept] == ListKept(cached[..i])
          invariant children[kept..] == cached[i..]
        {
          CleanListStep(cached, i);
          var child := cached[i];
          var isWrongElement := !(IsDd(child) || IsList(child));
          ghost var before := children;
          SuffixStep(before, kept, cached, i);
          if isWrongElement {
            RemoveChild(kept);
            assert children[..kept] == before[..kept];
            assert children[kept..] == before[kept + 1..];
          } else {
            kept := kept + 1;
            assert children[..kept] == before[..kept - 1] + [child];
          }
        }
        assert cached[..|cached|] == cached;
        assert children == children[..kept] + children[kept..];
      }
    }

    /**
     * `cleanListItem` on this list item element: when its name is still
     * consumable and it has children, every child after the first list that
     * is not itself a list is removed.
     */
    method CleanListItem(consumable: bool)
      modifies this
      ensures children == if consumable then ItemKept(old(children)) else old(children)
    {
      if consumable {
        if |children| == 0 {
          return;
        }
        var cached := children;
        var foundList := false;
        var kept := 0;
        for i := 0 to |cached|
          invariant foundList <==> OnlyLists(cached[..i]) != []
          invariant kept <= |children|
          invariant children[..kept] == ItemKept(cached[..i])
          invariant children[kept..] == cached[i..]
        {
          var child := cached[i];
          var remove := foundList && !IsList(child);
          CleanItemStep(cached, i);
          ghost var before := children;
          SuffixStep(before, kept, cached, i);
          if remove {
            RemoveChild(kept);
            assert children[..kept] == before[..kept];
            assert children[kept..] == before[kept + 1..];
          } else {
            kept := kept + 1;
            assert children[..kept] == before[..kept - 1] + [child];
          }
          if IsList(child) {
            foundList := true;
          }
        }
        assert cached[..|cached|] == cached;
        assert children == children[..kept] + children[kept..];
      }
    }
  }

  /** One iteration of the `cleanList` loop, on the prefix of the cached children. */
  lemma CleanListStep(cached: seq<ViewNode>, i: nat)
    requires i < |cached|
    ensures ListKept(cached[..i + 1]) == ListKept(cached[..i]) + (if IsDd(cached[i]) || IsList(cached[i]) then [cached[i]] else [])
  {
    assert cached[..i + 1] == cached[..i] + [cached[i]];
    ListKeptSnoc(cached[..i], cached[i]);
  }

  /** The live children from `kept` on are the cached ones from `i` on: one step further along both. */
  lemma SuffixStep(live: seq<ViewNode>, kept: nat, cached: seq<ViewNode>, i: nat)
    requires kept <= |live| && i < |cached| && live[kept..] == cached[i..]
    ensures kept < |live| && live[kept] == cached[i] && live[kept + 1..] == cached[i + 1..]
  {
    assert live[kept..][0] == cached[i..][0];
    assert live[kept..][1..] == live[kept + 1..] && cached[i..][1..] == cached[i + 1..];
  }

  /** One iteration of the `cleanListItem` loop, on the prefix of the cached children. */
  lemma CleanItemStep(cached: seq<ViewNode>, i: nat)
    requires i < |cached|
    ensures ItemKept(cached[..i + 1]) == ItemKept(cached[..i])
      + (if OnlyLists(cached[..i]) != [] && !IsList(cached[i]) then [] else [cached[i]])
    ensures OnlyLists(cached[..i + 1]) != [] <==> OnlyLists(cached[..i]) != [] || IsList(cached[i])
  {
    assert cached[..i + 1] == cached[..i] + [cached[i]];
    ItemKeptSnoc(cached[..i], cached[i]);
    OnlyListsSnoc(cached[..i], cached[i]);
  }

  lemma {:induction false} ListKeptSnoc(cs: seq<ViewNode>, c: ViewNode)
    ensures ListKept(cs + [c]) == ListKept(cs) + (if IsDd(c) || IsList(c) then [c] else [])
  {
    if cs == [] {
      assert [c][1..] == [];
    } else {
      assert (cs + [c])[0] == cs[0];
      assert (cs + [c])[1..] == cs[1..] + [c];
      ListKeptSnoc(cs[1..], c);
    }
  }

  lemma {:induction false} OnlyListsSnoc(cs: seq<ViewNode>, c: ViewNode)
    ensures OnlyLists(cs + [c]) == OnlyLists(cs) + (if IsList(c) then [c] else [])
  {
    if cs == [] {
      assert [c][1..] == [];
    } else {
      assert (cs + [c])[0] == cs[0];
      assert (cs + [c])[1..] == cs[1..] + [c];
      OnlyListsSnoc(cs[1..], c);
    }
  }

  /**
   * Appending a child to a list item: it is kept unless a list came before
   * it and it is not a list itself.
   */
  lemma {:induction false} ItemKeptSnoc(cs: seq<ViewNode>, c: ViewNode)
    ensures ItemKept(cs + [c]) == ItemKept(cs) + (if OnlyLists(cs) != [] && !IsList(c) then [] else [c])
  {
    if cs == [] {
      assert [c][1..] == [];
    } else {
      assert (cs + [c])[0] == cs[0];
      assert (cs + [c])[1..] == cs[1..] + [c];
      if IsList(cs[0]) {
        OnlyListsSnoc(cs[1..], c);
      } else {
        ItemKeptSnoc(cs[1..], c);
      }
    }
  }
}
