/**
 * The indent repair of the list post-fixer (`_fixListIndents` in
 * converters.js): one forward pass over a run of list items that clamps
 * indent jumps.
 */
module ListIndents {
  import opened Blocks

  /** Number returned by the clamping step: the new `fixBy` and the new indent. */
  datatype Clamp = Clamp(fixBy: nat, newIndent: nat)

  /**
   * What the pass does to an item whose indent exceeds the ceiling. With no
   * offset yet the item drops to the ceiling and the offset is the jump;
   * later items are lowered by the offset, capped at their own indent.
   */
  function ClampStep(itemIndent: nat, maxIndent: nat, fixBy: Option<nat>): (c: Clamp)
    requires itemIndent > maxIndent
    requires fixBy.Some? ==> fixBy.value >= 1
    ensures 1 <= c.fixBy <= itemIndent
    ensures c.newIndent < itemIndent
    ensures c.newIndent + c.fixBy == itemIndent
  {
    if fixBy.None? then Clamp(itemIndent - maxIndent, maxIndent)
    else
      var f := if fixBy.value > itemIndent then itemIndent else fixBy.value;
      Clamp(f, itemIndent - f)
  }

  /**
   * The pass from item `i` on, with the ceiling `maxIndent` and the running
   * offset `fixBy` (`None` for JavaScript's `null`).
   */
  function FixLoop(s: seq<Block>, i: nat, maxIndent: nat, fixBy: Option<nat>): (r: seq<Block>)
    requires fixBy.Some? ==> fixBy.value >= 1
    ensures |r| == |s|
    decreases |s| - i
  {
    if i < |s| && IsListItem(s[i]) then
      var itemIndent := Indent(s[i]);
      if itemIndent > maxIndent then
        var c := ClampStep(itemIndent, maxIndent, fixBy);
        FixLoop(s[i := s[i].(listIndent := Some(c.newIndent))], i + 1, maxIndent, Some(c.fixBy))
      else
        FixLoop(s, i + 1, itemIndent + 1, None)
    else
      s
  }

  /** `_fixListIndents(head)`: the whole pass over the run starting at `head`. */
  function FixIndents(s: seq<Block>, head: nat): (r: seq<Block>)
    ensures |r| == |s|
  {
    FixLoop(s, head, 0, None)
  }

  /**
   * The invariant the pass establishes when it is the identity: the first
   * item has indent 0 and every later one is at most one deeper than the
   * item before it.
   */
  predicate WellIndented(s: seq<Block>, head: nat)
    requires head <= |s|
  {
    forall k :: head <= k < RunEnd(s, head) ==>
      Indent(s[k]) <= (if k == head then 0 else Indent(s[k - 1]) + 1)
  }

  /** The ceiling the pass has when it reaches `i` having changed nothing. */
  function Ceiling(s: seq<Block>, head: nat, i: nat): nat
    requires head <= i <= |s| && (i > head ==> i - 1 < |s|)
  {
    if i == head then 0 else Indent(s[i - 1]) + 1
  }

  /** Sum of the indents of all blocks: the measure the pass decreases. */
  function IndentSum(s: seq<Block>): nat {
    if s == [] then 0 else IndentSum(s[..|s| - 1]) + Indent(s[|s| - 1])
  }

  /**
   * `r` differs from `s` only on `[lo, hi)`, and there only in `listIndent`,
   * which never grows and strictly drops wherever the block changed.
   */
  predicate IndentsLowered(s: seq<Block>, r: seq<Block>, lo: nat, hi: nat)
    requires |r| == |s| && lo <= hi <= |s|
  {
    && (forall k :: 0 <= k < |s| && !(lo <= k < hi) ==> r[k] == s[k])
    && (forall k :: lo <= k < hi ==>
          r[k] == s[k].(listIndent := r[k].listIndent) && Indent(r[k]) <= Indent(s[k])
          && (s[k].listIndent.Some? ==> r[k].listIndent.Some?)
          && (r[k] != s[k] ==> Indent(r[k]) < Indent(s[k])))
  }

  /** Lowering indents keeps every list item's `listIndent` attribute. */
  lemma LoweredWellFormed(s: seq<Block>, r: seq<Block>, lo: nat, hi: nat)
    requires |r| == |s| && lo <= hi <= |s| && WellFormed(s) && IndentsLowered(s, r, lo, hi)
    ensures WellFormed(r)
  {
    forall k | 0 <= k < |r| && IsListItem(r[k])
      ensures r[k].listIndent.Some?
    {
      if lo <= k < hi {
        assert r[k].name == s[k].name;
      }
    }
  }

  /** Lowering the indent of block `i` first extends a lowering of `[i + 1, e)` to `[i, e)`. */
  lemma LoweredStep(s: seq<Block>, s': seq<Block>, r: seq<Block>, i: nat, e: nat, n: nat)
    requires i < e <= |s| && |r| == |s| && s[i].listIndent.Some? && n < Indent(s[i])
    requires s' == s[i := s[i].(listIndent := Some(n))]
    requires IndentsLowered(s', r, i + 1, e)
    ensures IndentsLowered(s, r, i, e)
  {
    assert r[i] == s'[i];
  }

  /** Passing over block `i` unchanged extends a lowering of `[i + 1, e)` to `[i, e)`. */
  lemma KeptStep(s: seq<Block>, r: seq<Block>, i: nat, e: nat)
    requires i < e <= |s| && |r| == |s|
    requires IndentsLowered(s, r, i + 1, e)
    ensures IndentsLowered(s, r, i, e)
  {
    assert r[i] == s[i];
  }

  /**
   * The pass rewrites only list items of the run from `i`, only their
   * `listIndent`, always to a strictly smaller value, and keeps the sequence
   * well formed.
   */
  lemma {:induction false} FixLoopShape(s: seq<Block>, i: nat, maxIndent: nat, fixBy: Option<nat>)
    requires i <= |s| && WellFormed(s)
    requires fixBy.Some? ==> fixBy.value >= 1
    ensures var r := FixLoop(s, i, maxIndent, fixBy);
      |r| == |s| && IndentsLowered(s, r, i, RunEnd(s, i))
    decreases |s| - i
  {
    var r := FixLoop(s, i, maxIndent, fixBy);
    if i < |s| && IsListItem(s[i]) {
      var e := RunEnd(s, i);
      assert e == RunEnd(s, i + 1);
      var itemIndent := Indent(s[i]);
      if itemIndent > maxIndent {
        var c := ClampStep(itemIndent, maxIndent, fixBy);
        var s' := s[i := s[i].(listIndent := Some(c.newIndent))];
        assert r == FixLoop(s', i + 1, maxIndent, Some(c.fixBy));
        RunEndSameNames(s, s', i + 1);
        FixLoopShape(s', i + 1, maxIndent, Some(c.fixBy));
        assert IndentsLowered(s', r, i + 1, e);
        LoweredStep(s, s', r, i, e, c.newIndent);
      } else {
        assert r == FixLoop(s, i + 1, itemIndent + 1, None);
        FixLoopShape(s, i + 1, itemIndent + 1, None);
        assert IndentsLowered(s, r, i + 1, e);
        KeptStep(s, r, i, e);
      }
      assert IndentsLowered(s, r, i, e);
    }
  }

  /** The pass always leaves the head of a run at indent 0. */
  lemma HeadGetsIndentZero(s: seq<Block>, head: nat)
    requires head < |s| && IsListItem(s[head]) && WellFormed(s)
    ensures Indent(FixIndents(s, head)[head]) == 0
  {
    var itemIndent := Indent(s[head]);
    if itemIndent > 0 {
      var c := ClampStep(itemIndent, 0, None);
      var s' := s[head := s[head].(listIndent := Some(c.newIndent))];
      FixLoopShape(s', head + 1, 0, Some(c.fixBy));
    } else {
      FixLoopShape(s, head + 1, 1, None);
    }
  }

  /** Every item the pass rewrites ends strictly shallower, and nothing else changes. */
  lemma FixIndentsShape(s: seq<Block>, head: nat)
    requires head <= |s| && WellFormed(s)
    ensures var r := FixIndents(s, head);
      && |r| == |s| && WellFormed(r)
      && (forall k :: 0 <= k < |s| && !(head <= k < RunEnd(s, head)) ==> r[k] == s[k])
      && (forall k :: head <= k < RunEnd(s, head) ==>
            r[k] == s[k].(listIndent := r[k].listIndent)
            && (r[k] != s[k] ==> Indent(r[k]) < Indent(s[k])))
  {
    FixLoopShape(s, head, 0, None);
    LoweredWellFormed(s, FixIndents(s, head), head, RunEnd(s, head));
  }

  lemma {:induction false} RunEndInside(s: seq<Block>, head: nat, i: nat)
    requires head <= |s| && head <= i <= RunEnd(s, head)
    ensures RunEnd(s, i) == RunEnd(s, head)
    decreases i - head
  {
    if i > head {
      RunEndInside(s, head, i - 1);
    }
  }

  /**
   * From an item reached with nothing changed yet, the rest of the pass is
   * the identity exactly when every remaining item respects the ceiling.
   */
  lemma {:induction false} FixLoopIdentity(s: seq<Block>, head: nat, i: nat)
    requires head <= |s| && head <= i <= RunEnd(s, head) && WellFormed(s)
    ensures FixLoop(s, i, Ceiling(s, head, i), None) == s
        <==> (forall k :: i <= k < RunEnd(s, head) ==> Indent(s[k]) <= Ceiling(s, head, k))
    decreases |s| - i
  {
    RunEndInside(s, head, i);
    if i < RunEnd(s, head) {
      var itemIndent := Indent(s[i]);
      var maxIndent := Ceiling(s, head, i);
      if itemIndent > maxIndent {
        var c := ClampStep(itemIndent, maxIndent, None);
        var s' := s[i := s[i].(listIndent := Some(c.newIndent))];
        FixLoopShape(s', i + 1, maxIndent, Some(c.fixBy));
        assert FixLoop(s, i, maxIndent, None)[i] != s[i];
      } else {
        FixLoopIdentity(s, head, i + 1);
      }
    }
  }

  /** The pass changes nothing if and only if the run is already well indented. */
  lemma FixIndentsIdentityIff(s: seq<Block>, head: nat)
    requires head <= |s| && WellFormed(s)
    ensures FixIndents(s, head) == s <==> WellIndented(s, head)
  {
    FixLoopIdentity(s, head, head);
  }

  lemma {:induction false} IndentSumMonotone(r: seq<Block>, s: seq<Block>)
    requires |r| == |s|
    requires forall k :: 0 <= k < |s| ==> Indent(r[k]) <= Indent(s[k])
    ensures IndentSum(r) <= IndentSum(s)
    ensures (exists k :: 0 <= k < |s| && Indent(r[k]) < Indent(s[k])) ==> IndentSum(r) < IndentSum(s)
    decreases |s|
  {
    if s != [] {
      var n := |s| - 1;
      IndentSumMonotone(r[..n], s[..n]);
      if exists k :: 0 <= k < |s| && Indent(r[k]) < Indent(s[k]) {
        var k :| 0 <= k < |s| && Indent(r[k]) < Indent(s[k]);
        if k < n {
          assert Indent(r[..n][k]) < Indent(s[..n][k]);
        }
      }
    }
  }

  /**
   * A pass that changes something strictly lowers the sum of indents, so
   * re-running the post-fixer until it reports no change terminates.
   */
  lemma FixIndentsLowersSum(s: seq<Block>, head: nat)
    requires head <= |s| && WellFormed(s)
    ensures FixIndents(s, head) != s ==> IndentSum(FixIndents(s, head)) < IndentSum(s)
  {
    var r := FixIndents(s, head);
    FixIndentsShape(s, head);
    if r != s {
      var k :| 0 <= k < |s| && r[k] != s[k];
      IndentSumMonotone(r, s);
    }
  }

  /**
   * The host's re-run-until-quiet loop restricted to this pass: repeat it
   * until it changes nothing. The result is a well-indented run.
   */
  function FixIndentsUntilQuiet(s: seq<Block>, head: nat): (r: seq<Block>)
    requires head <= |s| && WellFormed(s)
    ensures |r| == |s| && WellFormed(r) && WellIndented(r, head)
    ensures forall k :: 0 <= k < |s| ==> r[k].name == s[k].name && r[k].listType == s[k].listType
    ensures FixIndents(r, head) == r
    decreases IndentSum(s)
  {
    var t := FixIndents(s, head);
    FixIndentsShape(s, head);
    FixIndentsLowersSum(s, head);
    if t == s then
      FixIndentsIdentityIff(s, head);
      s
    else
      FixIndentsUntilQuiet(t, head)
  }

  /** A list item of type "dl" at the given indent. */
  function Item(indent: nat): Block {
    Block(ListItemName, Some("dl"), Some(indent), map[])
  }

  /** One pass does not always normalise: [0, 3, 5] becomes [0, 1, 3]. */
  lemma OnePassIsNotEnough()
    ensures FixIndents([Item(0), Item(3), Item(5)], 0) == [Item(0), Item(1), Item(3)]
    ensures !WellIndented([Item(0), Item(1), Item(3)], 0)
  {
    var s := [Item(0), Item(3), Item(5)];
    var s1 := s[1 := Item(1)];
    var s2 := s1[2 := Item(3)];
    assert FixLoop(s2, 3, 1, Some(2)) == s2;
    assert FixLoop(s1, 2, 1, Some(2)) == s2;
    assert FixLoop(s, 1, 1, None) == s2;
    assert RunEnd(s2, 0) == 3 by {
      assert RunEnd(s2, 3) == 3;
    }
    assert Indent(s2[2]) > Indent(s2[1]) + 1;
  }

  /**
   * `_fixListIndents` run in place on the root's children. `changed` is what
   * the pass adds to the post-fixer's `applied` flag.
   */
  method FixListIndents(doc: array<Block>, head: nat) returns (changed: bool)
    requires head <= doc.Length && WellFormed(doc[..])
    modifies doc
    ensures doc[..] == FixIndents(old(doc[..]), head)
    ensures changed <==> doc[..] != old(doc[..])
  {
    var maxIndent: nat := 0;
    var fixBy: Option<nat> := None;
    var i := head;
    changed := false;
    while i < doc.Length && IsListItem(doc[i])
      invariant head <= i <= doc.Length
      invariant fixBy.Some? ==> fixBy.value >= 1
      invariant FixLoop(doc[..], i, maxIndent, fixBy) == FixIndents(old(doc[..]), head)
      invariant forall k :: 0 <= k < doc.Length && !(head <= k < i) ==> doc[k] == old(doc[k])
      invariant changed <==> exists k :: head <= k < i && doc[k] != old(doc[k])
    {
      var itemIndent := Indent(doc[i]);
      if itemIndent > maxIndent {
        var newIndent: nat;
        if fixBy.None? {
          fixBy := Some(itemIndent - maxIndent);
          newIndent := maxIndent;
        } else {
          if fixBy.value > itemIndent {
            fixBy := Some(itemIndent);
          }
          newIndent := itemIndent - fixBy.value;
        }
        doc[i] := doc[i].(listIndent := Some(newIndent));
        changed := true;
      } else {
        fixBy := None;
        maxIndent := Indent(doc[i]) + 1;
      }
      i := i + 1;
    }
    assert FixLoop(doc[..], i, maxIndent, fixBy) == doc[..];
  }
}
