/**
 * The type repair of the list post-fixer (`_fixListTypes` in converters.js):
 * one forward pass over a run that makes every nested item take the type
 * established at its level.
 */
module ListTypes {
  import opened Blocks

  /**
   * The pass's `typesStack`, a sparse JavaScript array: a level that was
   * never written, or was cut off, is absent.
   */
  type TypesStack = map<nat, Option<string>>

  /** `typesStack.slice(0, level + 1)`: keep the levels 0..level. */
  function Truncate(stack: TypesStack, level: nat): (r: TypesStack)
    ensures forall l :: l in r <==> l in stack && l <= level
    ensures forall l :: l in r ==> r[l] == stack[l]
  {
    map l | l in stack && l <= level :: stack[l]
  }

  /** The stack entry at `level` when it is truthy, as the pass tests it. */
  function Lookup(stack: TypesStack, level: nat): Option<string> {
    if level in stack && Truthy(stack[level]) then Some(stack[level].value) else None
  }

  /** The truncation the pass makes when the indent drops below the previous item's. */
  function CutStack(stack: TypesStack, prevIndent: Option<nat>, itemIndent: nat): TypesStack {
    if prevIndent.Some? && prevIndent.value > itemIndent then Truncate(stack, itemIndent) else stack
  }

  /** Recording an item's type as the one established at its (non-zero) level. */
  function Record(stack: TypesStack, itemIndent: nat, t: Option<string>): TypesStack {
    if itemIndent != 0 then stack[itemIndent := t] else stack
  }

  /**
   * The pass from item `i` on; `prevIndent` is the indent of the item before
   * `i` in the run (`None` at the head, where `prev` is `null`).
   */
  function FixLoop(s: seq<Block>, i: nat, stack: TypesStack, prevIndent: Option<nat>): (r: seq<Block>)
    ensures |r| == |s|
    decreases |s| - i
  {
    if i < |s| && IsListItem(s[i]) then
      var itemIndent := Indent(s[i]);
      var st := CutStack(stack, prevIndent, itemIndent);
      if itemIndent != 0 && Lookup(st, itemIndent).Some? then
        var t := Lookup(st, itemIndent).value;
        var s' := if s[i].listType != Some(t) then s[i := s[i].(listType := Some(t))] else s;
        FixLoop(s', i + 1, st, Some(itemIndent))
      else
        FixLoop(s, i + 1, Record(st, itemIndent, s[i].listType), Some(itemIndent))
    else
      s
  }

  /** `_fixListTypes(head)`. */
  function FixTypes(s: seq<Block>, head: nat): (r: seq<Block>)
    ensures |r| == |s|
  {
    FixLoop(s, head, map[], None)
  }

  /**
   * Reference definition: the type established at `level` for the item after
   * `k`. It is the type of the earliest item at `level` with a truthy type in
   * the stretch of the run that ends at `k` and holds no item shallower than
   * `level`; `None` when there is no such item.
   */
  function Established(s: seq<Block>, head: nat, k: int, level: nat): Option<string>
    requires head - 1 <= k < |s|
    decreases k - head + 1
  {
    if k < head || Indent(s[k]) < level then None
    else
      var earlier := Established(s, head, k - 1, level);
      if earlier.Some? then earlier
      else if Indent(s[k]) == level && Truthy(s[k].listType) then Some(s[k].listType.value)
      else None
  }

  /** The type the item at `j` must have after the pass, by the reference definition. */
  function ExpectedType(s: seq<Block>, head: nat, j: nat): Option<string>
    requires head <= j < |s|
  {
    if Indent(s[j]) == 0 then s[j].listType
    else
      match Established(s, head, j - 1, Indent(s[j]))
      case Some(t) => Some(t)
      case None => s[j].listType
  }

  /**
   * One step of the pass keeps the stack equal to the reference: after item
   * `i` the truthy entries are the types established up to `i`, and the type
   * the step gives item `i` is its expected type.
   */
  lemma StackStep(orig: seq<Block>, head: nat, i: nat, stack: TypesStack, prev: Option<nat>)
    requires head <= |orig| && head <= i < RunEnd(orig, head)
    requires prev == if i == head then None else Some(Indent(orig[i - 1]))
    requires forall l: nat :: 0 < l ==> Lookup(stack, l) == Established(orig, head, i - 1, l)
    ensures var itemIndent := Indent(orig[i]);
      var st := CutStack(stack, prev, itemIndent);
      var rewrite := itemIndent != 0 && Lookup(st, itemIndent).Some?;
      var st' := if rewrite then st else Record(st, itemIndent, orig[i].listType);
      && (forall l: nat :: 0 < l ==> Lookup(st', l) == Established(orig, head, i, l))
      && ExpectedType(orig, head, i) == (if rewrite then Lookup(st, itemIndent) else orig[i].listType)
  {
    var itemIndent := Indent(orig[i]);
    var st := CutStack(stack, prev, itemIndent);
    forall l: nat | 0 < l
      ensures Lookup(st, l) == if l <= itemIndent then Established(orig, head, i - 1, l) else None
    {
      assert Lookup(stack, l) == Established(orig, head, i - 1, l);
    }
    var rewrite := itemIndent != 0 && Lookup(st, itemIndent).Some?;
    var st' := if rewrite then st else Record(st, itemIndent, orig[i].listType);
    forall l: nat | 0 < l ensures Lookup(st', l) == Established(orig, head, i, l) {
      if l != itemIndent {
        assert Lookup(st', l) == Lookup(st, l);
      }
    }
  }

  /**
   * Loop invariant of the pass written against the reference: the items
   * before `i` carry their expected type, the rest are untouched, and the
   * truthy stack entries are exactly the established types.
   */
  lemma {:induction false} FixLoopMatchesReference(
    orig: seq<Block>, head: nat, cur: seq<Block>, i: nat, stack: TypesStack, prev: Option<nat>)
    requires head <= |orig| && head <= i <= RunEnd(orig, head)
    requires |cur| == |orig|
    requires forall k :: 0 <= k < |orig| && !(head <= k < i) ==> cur[k] == orig[k]
    requires forall k :: head <= k < i ==> cur[k] == orig[k].(listType := ExpectedType(orig, head, k))
    requires prev == if i == head then None else Some(Indent(orig[i - 1]))
    requires forall l: nat :: 0 < l ==> Lookup(stack, l) == Established(orig, head, i - 1, l)
    ensures var r := FixLoop(cur, i, stack, prev);
      && (forall k :: 0 <= k < |orig| && !(head <= k < RunEnd(orig, head)) ==> r[k] == orig[k])
      && (forall k :: head <= k < RunEnd(orig, head) ==> r[k] == orig[k].(listType := ExpectedType(orig, head, k)))
    decreases |orig| - i
  {
    if i < RunEnd(orig, head) {
      assert cur[i] == orig[i];
      var itemIndent := Indent(orig[i]);
      var st := CutStack(stack, prev, itemIndent);
      StackStep(orig, head, i, stack, prev);
      if itemIndent != 0 && Lookup(st, itemIndent).Some? {
        var t := Lookup(st, itemIndent).value;
        var cur' := if cur[i].listType != Some(t) then cur[i := cur[i].(listType := Some(t))] else cur;
        FixLoopMatchesReference(orig, head, cur', i + 1, st, Some(itemIndent));
      } else {
        FixLoopMatchesReference(orig, head, cur, i + 1, Record(st, itemIndent, cur[i].listType), Some(itemIndent));
      }
    }
  }

  /**
   * The pass gives every item of the run its expected type and changes
   * nothing else: no indent, no name, no other attribute, no block outside
   * the run.
   */
  lemma FixTypesReference(s: seq<Block>, head: nat)
    requires head <= |s|
    ensures var r := FixTypes(s, head);
      && (forall k :: 0 <= k < |s| && !(head <= k < RunEnd(s, head)) ==> r[k] == s[k])
      && (forall k :: head <= k < RunEnd(s, head) ==> r[k] == s[k].(listType := ExpectedType(s, head, k)))
  {
    FixLoopMatchesReference(s, head, s, head, map[], None);
  }

  /** The pass never touches `listIndent` and never retypes an item at indent 0. */
  lemma FixTypesKeepsIndents(s: seq<Block>, head: nat)
    requires head <= |s|
    ensures var r := FixTypes(s, head);
      && (forall k :: 0 <= k < |s| ==> r[k].listIndent == s[k].listIndent && r[k].name == s[k].name)
      && (forall k :: 0 <= k < |s| && Indent(s[k]) == 0 ==> r[k] == s[k])
      && (WellFormed(s) ==> WellFormed(r))
  {
    FixTypesReference(s, head);
  }

  /** An established type stays established while the run does not go shallower. */
  lemma {:induction false} EstablishedStable(s: seq<Block>, head: nat, e: nat, k: nat, level: nat)
    requires head <= e <= k < |s|
    requires Established(s, head, e, level).Some?
    requires forall m :: e < m <= k ==> Indent(s[m]) >= level
    ensures Established(s, head, k, level) == Established(s, head, e, level)
    decreases k - e
  {
    if k > e {
      EstablishedStable(s, head, e, k - 1, level);
    }
  }

  /**
   * Type-block consistency after the pass: within a stretch of the run that
   * never goes shallower than level L > 0, every item at L takes the type of
   * any earlier item at L whose type is set.
   */
  lemma FixTypesConsistent(s: seq<Block>, head: nat, e: nat, j: nat)
    requires head <= |s| && head <= e < j < RunEnd(s, head)
    requires Indent(s[j]) > 0 && Indent(s[e]) == Indent(s[j])
    requires forall m :: e < m < j ==> Indent(s[m]) >= Indent(s[j])
    requires Truthy(FixTypes(s, head)[e].listType)
    ensures FixTypes(s, head)[j].listType == FixTypes(s, head)[e].listType
  {
    var level := Indent(s[j]);
    FixTypesReference(s, head);
    assert Established(s, head, e, level) == ExpectedType(s, head, e);
    EstablishedStable(s, head, e, j - 1, level);
  }

  /** The pass does not alter the established types it reads. */
  lemma {:induction false} EstablishedAfterFix(s: seq<Block>, head: nat, k: int, level: nat)
    requires head <= |s| && head - 1 <= k < RunEnd(s, head)
    ensures Established(FixTypes(s, head), head, k, level) == Established(s, head, k, level)
    decreases k - head + 1
  {
    FixTypesReference(s, head);
    if k >= head {
      EstablishedAfterFix(s, head, k - 1, level);
    }
  }

  /** After the pass, each run item already carries the type the reference expects of it. */
  lemma FixedItemHasExpectedType(s: seq<Block>, head: nat, k: nat)
    requires head <= |s| && head <= k < RunEnd(s, head)
    ensures ExpectedType(FixTypes(s, head), head, k) == FixTypes(s, head)[k].listType
  {
    var r := FixTypes(s, head);
    FixTypesReference(s, head);
    assert r[k] == s[k].(listType := ExpectedType(s, head, k));
    if Indent(s[k]) != 0 {
      EstablishedAfterFix(s, head, k - 1, Indent(s[k]));
    }
  }

  /** Running the pass twice gives the same result as running it once. */
  lemma FixTypesIdempotent(s: seq<Block>, head: nat)
    requires head <= |s|
    ensures FixTypes(FixTypes(s, head), head) == FixTypes(s, head)
  {
    var r := FixTypes(s, head);
    var r2 := FixTypes(r, head);
    var e := RunEnd(s, head);
    FixTypesKeepsIndents(s, head);
    RunEndSameNames(s, r, head);
    FixTypesReference(r, head);
    forall k | 0 <= k < |r| ensures r2[k] == r[k] {
      if head <= k < e {
        FixedItemHasExpectedType(s, head, k);
        assert r2[k] == r[k].(listType := r[k].listType);
      }
    }
    assert r2 == r;
  }

  /**
   * `_fixListTypes` run in place on the root's children. The JavaScript keeps
   * the previous item and reads its indent; the pass does not change indents,
   * so keeping the indent is the same. `changed` is what the pass adds to the
   * post-fixer's `applied` flag. As for the indent pass, every list item is
   * required to carry `listIndent`.
   */
  method FixListTypes(doc: array<Block>, head: nat) returns (changed: bool)
    requires head <= doc.Length && WellFormed(doc[..])
    modifies doc
    ensures doc[..] == FixTypes(old(doc[..]), head)
    ensures changed <==> doc[..] != old(doc[..])
  {
    var typesStack: TypesStack := map[];
    var prev: Option<nat> := None;
    var i := head;
    changed := false;
    while i < doc.Length && IsListItem(doc[i])
      invariant head <= i <= doc.Length
      invariant FixLoop(doc[..], i, typesStack, prev) == FixTypes(old(doc[..]), head)
      invariant forall k :: 0 <= k < doc.Length && !(head <= k < i) ==> doc[k] == old(doc[k])
      invariant changed <==> exists k :: head <= k < i && doc[k] != old(doc[k])
    {
      var itemIndent := Indent(doc[i]);
      if prev.Some? && prev.value > itemIndent {
        typesStack := Truncate(typesStack, itemIndent);
      }
      if itemIndent != 0 {
        if itemIndent in typesStack && Truthy(typesStack[itemIndent]) {
          var t := typesStack[itemIndent].value;
          if doc[i].listType != Some(t) {
            doc[i] := doc[i].(listType := Some(t));
            changed := true;
          }
        } else {
          typesStack := typesStack[itemIndent := doc[i].listType];
        }
      }
      prev := Some(itemIndent);
      i := i + 1;
    }
    assert FixLoop(doc[..], i, typesStack, prev) == doc[..];
  }
}
