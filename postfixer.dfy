/**
 * The list post-fixer of converters.js (`modelChangePostFixer`): change
 * discovery that collects the heads of the affected runs, removal of stray
 * list attributes from inserted non-list elements, and the two repair passes
 * over every collected run.
 */
module PostFixer {
  import opened Blocks
  import ListIndents
  import ListTypes

  /** One entry of the host's change log, with positions as offsets in the root. */
  datatype Change =
    | Insert(position: nat, name: string, length: nat)
    | Remove(position: nat, name: string)
    | Attribute(start: nat, key: string)

  /**
   * The post-fixer's `itemToListHead`, a JavaScript `Map`: keys in insertion
   * order (re-setting a key keeps its place) and the head recorded for each.
   * Elements are identified by their offset in the root.
   */
  datatype HeadMap = HeadMap(order: seq<nat>, heads: map<nat, nat>)

  const EmptyMap: HeadMap := HeadMap([], map[])

  predicate ValidMap(m: HeadMap) {
    && (forall k :: k in m.heads ==> k in m.order)
    && (forall k :: k in m.order ==> k in m.heads)
    && (forall i, j :: 0 <= i < j < |m.order| ==> m.order[i] != m.order[j])
  }

  /** `Map.prototype.set`. */
  function Put(m: HeadMap, k: nat, v: nat): HeadMap {
    if k in m.heads then HeadMap(m.order, m.heads[k := v]) else HeadMap(m.order + [k], m.heads[k := v])
  }

  /** `itemToListHead.values()`, in iteration order. */
  function Values(m: HeadMap): (r: seq<nat>)
    requires ValidMap(m)
    ensures |r| == |m.order|
    ensures forall i :: 0 <= i < |r| ==> r[i] == m.heads[m.order[i]]
  {
    seq(|m.order|, i requires 0 <= i < |m.order| => m.heads[m.order[i]])
  }

  /** Every key is a list item and is mapped to the head of its run. */
  predicate MapsToHeads(s: seq<Block>, m: HeadMap) {
    forall k :: k in m.heads ==> k < |s| && IsListItem(s[k]) && m.heads[k] == RunHead(s, k)
  }

  /**
   * The run a position touches, as `_addListToFix` sees it: the run of the
   * list item before the position, or else the run starting at the list item
   * after it.
   */
  function TouchedRun(s: seq<Block>, pos: nat): (r: Option<nat>)
    requires pos <= |s|
    ensures r.Some? ==> r.value < |s| && IsListItem(s[r.value])
  {
    if pos > 0 && IsListItem(s[pos - 1]) then Some(RunHead(s, pos - 1))
    else if pos < |s| && IsListItem(s[pos]) then Some(pos)
    else None
  }

  lemma {:induction false} RunHeadWithin(s: seq<Block>, k: nat, j: nat)
    requires j < |s| && IsListItem(s[j])
    requires RunHead(s, j) <= k <= j
    ensures RunHead(s, k) == RunHead(s, j)
    decreases j - k
  {
    if k < j {
      RunHeadWithin(s, k, j - 1);
    }
  }

  /**
   * `r` is `m` with possibly more keys: it keeps the map's invariants
   * and the values already recorded, in their places.
   */
  predicate Extends(s: seq<Block>, m: HeadMap, r: HeadMap) {
    && ValidMap(m) && ValidMap(r) && MapsToHeads(s, r)
    && |r.order| >= |m.order| && forall i :: 0 <= i < |m.order| ==> Values(r)[i] == Values(m)[i]
  }

  /**
   * `_addListToFix(position)`. After a list item: walk back to its run head,
   * giving up as soon as an element of the run is already a key; otherwise
   * record the run under the element before the position. Not after a list
   * item: record the list item after the position as its own head.
   */
  function AddToFix(s: seq<Block>, m: HeadMap, pos: nat): (r: HeadMap)
    requires pos <= |s| && ValidMap(m) && MapsToHeads(s, m)
    ensures Extends(s, m, r)
    ensures TouchedRun(s, pos).Some? ==> TouchedRun(s, pos).value in Values(r)
  {
    if pos == 0 || !IsListItem(s[pos - 1]) then
      if pos < |s| && IsListItem(s[pos]) then
        PutHead(s, m, pos);
        Put(m, pos, pos)
      else m
    else
      var h := RunHead(s, pos - 1);
      if exists k :: h <= k <= pos - 1 && k in m.heads then
        var k :| h <= k <= pos - 1 && k in m.heads;
        KeyInRunGivesHead(s, m, k, pos - 1);
        m
      else
        PutHead(s, m, pos - 1);
        Put(m, pos - 1, h)
  }

  /** A key met on the walk back from `j` is recorded under the head of `j`'s run. */
  lemma KeyInRunGivesHead(s: seq<Block>, m: HeadMap, k: nat, j: nat)
    requires ValidMap(m) && MapsToHeads(s, m)
    requires j < |s| && IsListItem(s[j]) && RunHead(s, j) <= k <= j && k in m.heads
    ensures RunHead(s, j) in Values(m)
  {
    RunHeadWithin(s, k, j);
    assert k in m.order;
    assert Values(m)[IndexOf(m.order, k)] == RunHead(s, j);
  }

  /** `Put` keeps the keys distinct and the other keys' values in place. */
  lemma PutValid(m: HeadMap, k: nat, v: nat)
    requires ValidMap(m)
    ensures var r := Put(m, k, v);
      && ValidMap(r)
      && |r.order| >= |m.order|
      && (forall i :: 0 <= i < |m.order| ==> r.order[i] == m.order[i])
      && v in Values(r)
  {
    var r := Put(m, k, v);
    if k in m.heads {
      assert Values(r)[IndexOf(m.order, k)] == v;
    } else {
      assert Values(r)[|m.order|] == v;
      forall i, j | 0 <= i < j < |r.order| ensures r.order[i] != r.order[j] {
        if j == |m.order| {
          assert r.order[i] == m.order[i] && m.order[i] in m.heads;
        }
      }
    }
  }

  /** Recording a list item under the head of its run keeps the map's invariants and earlier values. */
  lemma PutHead(s: seq<Block>, m: HeadMap, k: nat)
    requires ValidMap(m) && MapsToHeads(s, m)
    requires k < |s| && IsListItem(s[k])
    ensures Extends(s, m, Put(m, k, RunHead(s, k))) && RunHead(s, k) in Values(Put(m, k, RunHead(s, k)))
  {
    var h := RunHead(s, k);
    var r := Put(m, k, h);
    PutValid(m, k, h);
    assert r.heads == m.heads[k := h];
    forall x | x in r.heads ensures x < |s| && IsListItem(s[x]) && r.heads[x] == RunHead(s, x) {
      if x != k {
        assert x in m.heads && r.heads[x] == m.heads[x];
      }
    }
    forall i | 0 <= i < |m.order| ensures Values(r)[i] == Values(m)[i] {
      var x := m.order[i];
      assert r.order[i] == x && x in m.heads;
      assert r.heads[x] == m.heads[x];
    }
  }

  function IndexOf(xs: seq<nat>, x: nat): (i: nat)
    requires x in xs
    ensures i < |xs| && xs[i] == x
  {
    if xs[0] == x then 0 else 1 + IndexOf(xs[1..], x)
  }

  /**
   * The backward walk of `_addListToFix` from the list item at `j`: it meets
   * a key of the map somewhere between the run head and `j`, or it reaches
   * the run head.
   */
  method WalkToHead(s: seq<Block>, m: HeadMap, j: nat) returns (met: bool, listHead: nat)
    requires j < |s| && IsListItem(s[j])
    ensures met <==> exists k :: RunHead(s, j) <= k <= j && k in m.heads
    ensures !met ==> listHead == RunHead(s, j)
  {
    ghost var h := RunHead(s, j);
    listHead := j;
    if listHead in m.heads {
      assert h <= listHead <= j;
      return true, listHead;
    }
    while listHead > 0 && IsListItem(s[listHead - 1])
      invariant h <= listHead <= j
      invariant RunHead(s, listHead) == h
      invariant forall k :: listHead <= k <= j ==> k !in m.heads
    {
      listHead := listHead - 1;
      if listHead in m.heads {
        assert h <= listHead <= j;
        return true, listHead;
      }
    }
    return false, listHead;
  }

  /** `_addListToFix` as the source writes it, with the backward walk as a loop. */
  method AddListToFix(s: seq<Block>, m: HeadMap, pos: nat) returns (r: HeadMap)
    requires pos <= |s| && ValidMap(m) && MapsToHeads(s, m)
    ensures r == AddToFix(s, m, pos)
  {
    if pos == 0 || !IsListItem(s[pos - 1]) {
      if pos < |s| && IsListItem(s[pos]) {
        r := Put(m, pos, pos);
      } else {
        r := m;
      }
      return;
    }
    var met, listHead := WalkToHead(s, m, pos - 1);
    if met {
      return m;
    }
    r := Put(m, pos - 1, listHead);
  }

  /** Attributes, besides `listType` and `listIndent`, that the post-fixer strips. */
  const StrippedKeys: set<string> := {"listStyle", "listReversed", "listStart"}

  predicate HasListAttributes(b: Block) {
    b.listType.Some? || b.listIndent.Some? || "listStyle" in b.others
    || "listReversed" in b.others || "listStart" in b.others
  }

  /** The five `removeAttribute` calls of the change loop. */
  function StripListAttributes(b: Block): (r: Block)
    ensures !HasListAttributes(r)
    ensures r.name == b.name
    ensures forall k :: k in b.others && k !in StrippedKeys ==> k in r.others && r.others[k] == b.others[k]
    ensures r == b <==> !HasListAttributes(b)
  {
    var r := b.(listType := None, listIndent := None, others := b.others - StrippedKeys);
    assert !HasListAttributes(b) ==> r.others == b.others;
    assert "listStyle" in b.others ==> "listStyle" !in r.others;
    r
  }

  /**
   * What the host's change log guarantees: positions lie in the root, and an
   * inserted element other than text sits at its position under its name.
   */
  predicate ValidChange(s: seq<Block>, c: Change) {
    match c
    case Insert(p, name, len) =>
      p + len <= |s| && (name != TextName && name != ListItemName ==> p < |s| && s[p].name == name)
    case Remove(p, _) => p <= |s|
    case Attribute(start, _) => start <= |s|
  }

  predicate ValidChanges(s: seq<Block>, cs: seq<Change>) {
    forall i :: 0 <= i < |cs| ==> ValidChange(s, cs[i])
  }

  /** The position whose run a change entry registers, if it registers one. */
  function Registered(c: Change): Option<nat> {
    match c
    case Insert(p, name, len) => if name == ListItemName then Some(p) else Some(p + len)
    case Remove(p, name) => if name == ListItemName then Some(p) else None
    case Attribute(start, key) => if key == "listIndent" || key == "listType" then Some(start) else None
  }

  /** The element a change entry strips, if it strips one. */
  function Stripped(c: Change): Option<nat> {
    match c
    case Insert(p, name, _) => if name != ListItemName && name != TextName then Some(p) else None
    case Remove(_, _) => None
    case Attribute(_, _) => None
  }

  /**
   * The stripping half of one change entry: the new root and whether an
   * attribute was removed.
   */
  function StripStep(s: seq<Block>, c: Change): (r: (seq<Block>, bool))
    requires ValidChange(s, c)
    ensures |r.0| == |s| && forall k :: 0 <= k < |s| ==> r.0[k].name == s[k].name
    ensures WellFormed(s) ==> WellFormed(r.0)
    ensures Stripped(c).Some? ==> !HasListAttributes(r.0[Stripped(c).value])
    ensures forall k :: 0 <= k < |s| && Stripped(c) != Some(k) ==> r.0[k] == s[k]
    ensures r.1 <==> r.0 != s
  {
    if Stripped(c).Some? then
      var p := Stripped(c).value;
      (s[p := StripListAttributes(s[p])], HasListAttributes(s[p]))
    else (s, false)
  }

  /** One iteration of the change loop: the new root, the new map and whether it removed anything. */
  function DiscoverStep(s: seq<Block>, m: HeadMap, c: Change): (r: (seq<Block>, HeadMap, bool))
    requires ValidChange(s, c) && ValidMap(m) && MapsToHeads(s, m)
    ensures |r.0| == |s| && forall k :: 0 <= k < |s| ==> r.0[k].name == s[k].name
    ensures ValidMap(r.1) && MapsToHeads(r.0, r.1)
    ensures |r.1.order| >= |m.order| && forall i :: 0 <= i < |m.order| ==> Values(r.1)[i] == Values(m)[i]
    ensures Registered(c).Some? && TouchedRun(s, Registered(c).value).Some? ==>
      TouchedRun(s, Registered(c).value).value in Values(r.1)
    ensures WellFormed(s) ==> WellFormed(r.0)
    ensures Stripped(c).Some? ==> !HasListAttributes(r.0[Stripped(c).value])
    ensures forall k :: 0 <= k < |s| && Stripped(c) != Some(k) ==> r.0[k] == s[k]
    ensures r.2 <==> r.0 != s
  {
    var (s1, removed) := StripStep(s, c);
    MapsToHeadsSameNames(s, s1, m);
    if Registered(c).Some? then
      var pos := Registered(c).value;
      TouchedRunSameNames(s, s1, pos);
      (s1, AddToFix(s1, m, pos), removed)
    else (s1, m, removed)
  }

  lemma RunHeadSameNames(s: seq<Block>, t: seq<Block>)
    requires |s| == |t| && forall k :: 0 <= k < |s| ==> s[k].name == t[k].name
    ensures forall k :: 0 <= k < |s| && IsListItem(s[k]) ==> RunHead(s, k) == RunHead(t, k)
  {
    forall k | 0 <= k < |s| && IsListItem(s[k]) ensures RunHead(s, k) == RunHead(t, k) {
      RunHeadSameNamesAt(s, t, k);
    }
  }

  lemma {:induction false} RunHeadSameNamesAt(s: seq<Block>, t: seq<Block>, k: nat)
    requires |s| == |t| && forall k :: 0 <= k < |s| ==> s[k].name == t[k].name
    requires k < |s| && IsListItem(s[k])
    ensures RunHead(s, k) == RunHead(t, k)
  {
    if k > 0 && IsListItem(s[k - 1]) {
      RunHeadSameNamesAt(s, t, k - 1);
    }
  }

  /** The change loop over the whole log. */
  function Discover(s: seq<Block>, cs: seq<Change>, m: HeadMap, applied: bool): (r: (seq<Block>, HeadMap, bool))
    requires ValidChanges(s, cs) && ValidMap(m) && MapsToHeads(s, m)
    ensures |r.0| == |s| && forall k :: 0 <= k < |s| ==> r.0[k].name == s[k].name
    ensures ValidMap(r.1) && MapsToHeads(r.0, r.1)
    ensures |r.1.order| >= |m.order| && forall i :: 0 <= i < |m.order| ==> Values(r.1)[i] == Values(m)[i]
    ensures WellFormed(s) ==> WellFormed(r.0)
    decreases |cs|
  {
    if cs == [] then (s, m, applied)
    else
      var step := DiscoverStep(s, m, cs[0]);
      assert ValidChanges(step.0, cs[1..]) by {
        forall i | 0 <= i < |cs[1..]| ensures ValidChange(step.0, cs[1..][i]) {
          assert ValidChange(s, cs[i + 1]);
        }
      }
      Discover(step.0, cs[1..], step.1, applied || step.2)
  }

  /** The repair loop: both passes over every collected head, in the map's order. */
  function FixRuns(s: seq<Block>, hs: seq<nat>, applied: bool): (r: (seq<Block>, bool))
    ensures |r.0| == |s|
    decreases |hs|
  {
    if hs == [] then (s, applied)
    else
      var s1 := ListIndents.FixIndents(s, hs[0]);
      var s2 := ListTypes.FixTypes(s1, hs[0]);
      FixRuns(s2, hs[1..], applied || s1 != s || s2 != s1)
  }

  /** `modelChangePostFixer`: the repaired root and the returned `applied` flag. */
  function PostFix(s: seq<Block>, cs: seq<Change>): (r: (seq<Block>, bool))
    requires ValidChanges(s, cs)
    ensures |r.0| == |s|
  {
    var d := Discover(s, cs, EmptyMap, false);
    FixRuns(d.0, Values(d.1), d.2)
  }

  lemma {:induction false} DiscoverUnapplied(s: seq<Block>, cs: seq<Change>, m: HeadMap, applied: bool)
    requires ValidChanges(s, cs) && ValidMap(m) && MapsToHeads(s, m)
    ensures var r := Discover(s, cs, m, applied); !r.2 ==> !applied && r.0 == s
    decreases |cs|
  {
    if cs != [] {
      var step := DiscoverStep(s, m, cs[0]);
      DiscoverUnapplied(step.0, cs[1..], step.1, applied || step.2);
    }
  }

  lemma {:induction false} FixRunsUnapplied(s: seq<Block>, hs: seq<nat>, applied: bool)
    ensures var r := FixRuns(s, hs, applied); !r.1 ==> !applied && r.0 == s
    decreases |hs|
  {
    if hs != [] {
      var s1 := ListIndents.FixIndents(s, hs[0]);
      var s2 := ListTypes.FixTypes(s1, hs[0]);
      FixRunsUnapplied(s2, hs[1..], applied || s1 != s || s2 != s1);
    }
  }

  /**
   * A post-fixer that returns false has changed nothing, so the host's
   * re-run-until-quiet loop may stop there.
   */
  lemma PostFixFalseMeansUnchanged(s: seq<Block>, cs: seq<Change>)
    requires ValidChanges(s, cs)
    ensures !PostFix(s, cs).1 ==> PostFix(s, cs).0 == s
  {
    var d := Discover(s, cs, EmptyMap, false);
    DiscoverUnapplied(s, cs, EmptyMap, false);
    FixRunsUnapplied(d.0, Values(d.1), d.2);
  }

  lemma TouchedRunSameNames(s: seq<Block>, t: seq<Block>, pos: nat)
    requires |s| == |t| && pos <= |s| && forall k :: 0 <= k < |s| ==> s[k].name == t[k].name
    ensures TouchedRun(s, pos) == TouchedRun(t, pos)
  {
    RunHeadSameNames(s, t);
  }

  /** Every recorded value is the head of a run. */
  lemma ValuesAreRunHeads(s: seq<Block>, m: HeadMap)
    requires ValidMap(m) && MapsToHeads(s, m)
    ensures forall h :: h in Values(m) ==> IsRunHead(s, h)
  {
    forall h | h in Values(m) ensures IsRunHead(s, h) {
      var i :| 0 <= i < |Values(m)| && Values(m)[i] == h;
      assert m.order[i] in m.heads;
    }
  }

  /**
   * Change discovery finds every touched run: for each entry that registers a
   * position next to a list item, the head of that item's run is among the
   * collected values.
   */
  lemma {:induction false} DiscoverFindsTouchedRuns(s: seq<Block>, cs: seq<Change>, m: HeadMap, applied: bool)
    requires ValidChanges(s, cs) && ValidMap(m) && MapsToHeads(s, m)
    ensures var r := Discover(s, cs, m, applied);
      forall i :: (0 <= i < |cs| && Registered(cs[i]).Some? && Registered(cs[i]).value <= |s|
        && TouchedRun(s, Registered(cs[i]).value).Some?) ==>
        TouchedRun(s, Registered(cs[i]).value).value in Values(r.1)
    decreases |cs|
  {
    if cs != [] {
      var r := Discover(s, cs, m, applied);
      var step := DiscoverStep(s, m, cs[0]);
      assert ValidChanges(step.0, cs[1..]) by {
        forall i | 0 <= i < |cs[1..]| ensures ValidChange(step.0, cs[1..][i]) {
          assert ValidChange(s, cs[i + 1]);
        }
      }
      DiscoverFindsTouchedRuns(step.0, cs[1..], step.1, applied || step.2);
      forall i | 0 <= i < |cs| && Registered(cs[i]).Some? && Registered(cs[i]).value <= |s|
        && TouchedRun(s, Registered(cs[i]).value).Some?
        ensures TouchedRun(s, Registered(cs[i]).value).value in Values(r.1)
      {
        var pos := Registered(cs[i]).value;
        TouchedRunSameNames(s, step.0, pos);
        if i == 0 {
          var h := TouchedRun(s, pos).value;
          var j :| 0 <= j < |Values(step.1)| && Values(step.1)[j] == h;
          assert Values(r.1)[j] == h;
        } else {
          assert cs[1..][i - 1] == cs[i];
        }
      }
    }
  }

  lemma {:induction false} DiscoverKeepsStripped(s: seq<Block>, cs: seq<Change>, m: HeadMap, applied: bool, p: nat)
    requires ValidChanges(s, cs) && ValidMap(m) && MapsToHeads(s, m)
    requires p < |s| && !HasListAttributes(s[p])
    ensures !HasListAttributes(Discover(s, cs, m, applied).0[p])
    decreases |cs|
  {
    if cs != [] {
      var step := DiscoverStep(s, m, cs[0]);
      assert ValidChanges(step.0, cs[1..]) by {
        forall i | 0 <= i < |cs[1..]| ensures ValidChange(step.0, cs[1..][i]) {
          assert ValidChange(s, cs[i + 1]);
        }
      }
      DiscoverKeepsStripped(step.0, cs[1..], step.1, applied || step.2, p);
    }
  }

  /** After discovery, every inserted element other than a list item or text carries no list attribute. */
  lemma {:induction false} DiscoverStrips(s: seq<Block>, cs: seq<Change>, m: HeadMap, applied: bool)
    requires ValidChanges(s, cs) && ValidMap(m) && MapsToHeads(s, m)
    ensures var r := Discover(s, cs, m, applied);
      forall i :: 0 <= i < |cs| && Stripped(cs[i]).Some? ==>
        Stripped(cs[i]).value < |s| && !IsListItem(r.0[Stripped(cs[i]).value])
        && !HasListAttributes(r.0[Stripped(cs[i]).value])
    decreases |cs|
  {
    if cs != [] {
      var r := Discover(s, cs, m, applied);
      var step := DiscoverStep(s, m, cs[0]);
      assert ValidChanges(step.0, cs[1..]) by {
        forall i | 0 <= i < |cs[1..]| ensures ValidChange(step.0, cs[1..][i]) {
          assert ValidChange(s, cs[i + 1]);
        }
      }
      DiscoverStrips(step.0, cs[1..], step.1, applied || step.2);
      forall i | 0 <= i < |cs| && Stripped(cs[i]).Some?
        ensures Stripped(cs[i]).value < |s| && !IsListItem(r.0[Stripped(cs[i]).value])
          && !HasListAttributes(r.0[Stripped(cs[i]).value])
      {
        assert ValidChange(s, cs[i]);
        if i == 0 {
          DiscoverKeepsStripped(step.0, cs[1..], step.1, applied || step.2, Stripped(cs[0]).value);
        } else {
          assert cs[1..][i - 1] == cs[i];
        }
      }
    }
  }

  /** The repair loop touches only list items, keeps names and keeps the root well formed. */
  lemma {:induction false} FixRunsKeepsNonItems(s: seq<Block>, hs: seq<nat>, applied: bool)
    requires WellFormed(s) && forall h :: h in hs ==> h <= |s|
    ensures var r := FixRuns(s, hs, applied);
      && WellFormed(r.0)
      && (forall k :: 0 <= k < |s| ==> r.0[k].name == s[k].name)
      && (forall k :: 0 <= k < |s| && !IsListItem(s[k]) ==> r.0[k] == s[k])
    decreases |hs|
  {
    if hs != [] {
      var s1 := ListIndents.FixIndents(s, hs[0]);
      var s2 := ListTypes.FixTypes(s1, hs[0]);
      assert hs[0] in hs;
      assert forall h :: h in hs[1..] ==> h in hs;
      ListIndents.FixIndentsShape(s, hs[0]);
      ListTypes.FixTypesReference(s1, hs[0]);
      ListTypes.FixTypesKeepsIndents(s1, hs[0]);
      FixRunsKeepsNonItems(s2, hs[1..], applied || s1 != s || s2 != s1);
    }
  }

  /**
   * Every inserted element other than a list item or text leaves the
   * post-fixer without `listIndent`, `listType`, `listStyle`, `listReversed`
   * or `listStart`.
   */
  lemma PostFixStripsInserted(s: seq<Block>, cs: seq<Change>)
    requires WellFormed(s) && ValidChanges(s, cs)
    ensures forall i :: 0 <= i < |cs| && Stripped(cs[i]).Some? ==>
      Stripped(cs[i]).value < |s| && !HasListAttributes(PostFix(s, cs).0[Stripped(cs[i]).value])
  {
    var d := Discover(s, cs, EmptyMap, false);
    DiscoverStrips(s, cs, EmptyMap, false);
    ValuesAreRunHeads(d.0, d.1);
    FixRunsKeepsNonItems(d.0, Values(d.1), d.2);
  }

  /** The indent pass over one run leaves the head of any other run as it is. */
  lemma FixIndentsKeepsOtherHead(s: seq<Block>, h': nat, h: nat)
    requires WellFormed(s) && IsRunHead(s, h') && IsRunHead(s, h) && h != h'
    ensures ListIndents.FixIndents(s, h')[h] == s[h]
  {
    ListIndents.FixIndentsShape(s, h');
  }

  lemma IsRunHeadSameNames(s: seq<Block>, t: seq<Block>, h: nat)
    requires |s| == |t| && forall k :: 0 <= k < |s| ==> s[k].name == t[k].name
    ensures IsRunHead(s, h) == IsRunHead(t, h)
  {
  }

  /** One round of both passes keeps run heads, names and well-formedness. */
  lemma RoundShape(s: seq<Block>, h: nat)
    requires WellFormed(s) && h <= |s|
    ensures var s2 := ListTypes.FixTypes(ListIndents.FixIndents(s, h), h);
      && WellFormed(s2)
      && (forall k :: 0 <= k < |s| ==> s2[k].name == s[k].name)
      && (forall x :: IsRunHead(s, x) ==> IsRunHead(s2, x))
  {
    var s1 := ListIndents.FixIndents(s, h);
    var s2 := ListTypes.FixTypes(s1, h);
    ListIndents.FixIndentsShape(s, h);
    ListTypes.FixTypesReference(s1, h);
    ListTypes.FixTypesKeepsIndents(s1, h);
    forall x | IsRunHead(s, x) ensures IsRunHead(s2, x) {
      IsRunHeadSameNames(s, s2, x);
    }
  }

  lemma {:induction false} FixRunsKeepsZeroHead(s: seq<Block>, hs: seq<nat>, applied: bool, h: nat)
    requires WellFormed(s) && (forall x :: x in hs ==> IsRunHead(s, x))
    requires IsRunHead(s, h) && Indent(s[h]) == 0
    ensures Indent(FixRuns(s, hs, applied).0[h]) == 0
    decreases |hs|
  {
    if hs != [] {
      var s1 := ListIndents.FixIndents(s, hs[0]);
      var s2 := ListTypes.FixTypes(s1, hs[0]);
      assert hs[0] in hs;
      if hs[0] == h {
        ListIndents.HeadGetsIndentZero(s, h);
      } else {
        FixIndentsKeepsOtherHead(s, hs[0], h);
      }
      ListIndents.FixIndentsShape(s, hs[0]);
      ListTypes.FixTypesKeepsIndents(s1, hs[0]);
      RoundShape(s, hs[0]);
      FixRunsKeepsZeroHead(s2, hs[1..], applied || s1 != s || s2 != s1, h);
    }
  }

  /** After the repair loop every processed head has indent 0. */
  lemma {:induction false} FixRunsHeadsZero(s: seq<Block>, hs: seq<nat>, applied: bool)
    requires WellFormed(s) && forall x :: x in hs ==> IsRunHead(s, x)
    ensures forall x :: x in hs ==> x < |s| && Indent(FixRuns(s, hs, applied).0[x]) == 0
    decreases |hs|
  {
    if hs != [] {
      var s1 := ListIndents.FixIndents(s, hs[0]);
      var s2 := ListTypes.FixTypes(s1, hs[0]);
      var a := applied || s1 != s || s2 != s1;
      assert hs[0] in hs;
      ListIndents.HeadGetsIndentZero(s, hs[0]);
      ListIndents.FixIndentsShape(s, hs[0]);
      ListTypes.FixTypesKeepsIndents(s1, hs[0]);
      RoundShape(s, hs[0]);
      FixRunsHeadsZero(s2, hs[1..], a);
      FixRunsKeepsZeroHead(s2, hs[1..], a, hs[0]);
    }
  }

  /**
   * End to end: the head of every run that a change entry touches leaves the
   * post-fixer at indent 0.
   */
  lemma PostFixTouchedRunsStartAtZero(s: seq<Block>, cs: seq<Change>)
    requires WellFormed(s) && ValidChanges(s, cs)
    ensures forall i :: (0 <= i < |cs| && Registered(cs[i]).Some? && Registered(cs[i]).value <= |s|
      && TouchedRun(s, Registered(cs[i]).value).Some?) ==>
      Indent(PostFix(s, cs).0[TouchedRun(s, Registered(cs[i]).value).value]) == 0
  {
    var d := Discover(s, cs, EmptyMap, false);
    DiscoverFindsTouchedRuns(s, cs, EmptyMap, false);
    ValuesAreRunHeads(d.0, d.1);
    FixRunsHeadsZero(d.0, Values(d.1), d.2);
  }

  /** The five attribute removals of the change loop on the element at `p`, in place. */
  method StripInPlace(doc: array<Block>, p: nat) returns (removed: bool)
    requires p < doc.Length
    modifies doc
    ensures doc[..] == old(doc[..])[p := StripListAttributes(old(doc[p]))]
    ensures removed == HasListAttributes(old(doc[p]))
  {
    removed := false;
    var item := doc[p];
    if item.listIndent.Some? {
      item := item.(listIndent := None);
      removed := true;
    }
    if item.listType.Some? {
      item := item.(listType := None);
      removed := true;
    }
    if "listStyle" in item.others {
      item := item.(others := item.others - {"listStyle"});
      removed := true;
    }
    if "listReversed" in item.others {
      item := item.(others := item.others - {"listReversed"});
      removed := true;
    }
    if "listStart" in item.others {
      item := item.(others := item.others - {"listStart"});
      removed := true;
    }
    assert item.others == old(doc[p]).others - StrippedKeys;
    doc[p] := item;
  }

  lemma ValidChangesSameNames(s: seq<Block>, t: seq<Block>, cs: seq<Change>)
    requires |s| == |t| && forall k :: 0 <= k < |s| ==> s[k].name == t[k].name
    requires ValidChanges(s, cs)
    ensures ValidChanges(t, cs)
  {
    forall i | 0 <= i < |cs| ensures ValidChange(t, cs[i]) {
      assert ValidChange(s, cs[i]);
    }
  }

  /** The map's invariant depends only on the element names. */
  lemma MapsToHeadsSameNames(s: seq<Block>, t: seq<Block>, m: HeadMap)
    requires |s| == |t| && forall k :: 0 <= k < |s| ==> s[k].name == t[k].name
    requires MapsToHeads(s, m)
    ensures MapsToHeads(t, m)
  {
    RunHeadSameNames(s, t);
  }

  /** One iteration of the change loop, in place on the root's children. */
  method DiscoverEntry(doc: array<Block>, m: HeadMap, c: Change) returns (m': HeadMap, removed: bool)
    requires ValidChange(doc[..], c) && ValidMap(m) && MapsToHeads(doc[..], m)
    modifies doc
    ensures (doc[..], m', removed) == DiscoverStep(old(doc[..]), m, c)
  {
    ghost var s := doc[..];
    removed := false;
    if Stripped(c).Some? {
      removed := StripInPlace(doc, Stripped(c).value);
    }
    ghost var s1 := doc[..];
    assert |s1| == |s| && forall k :: 0 <= k < |s| ==> s1[k].name == s[k].name;
    MapsToHeadsSameNames(s, s1, m);
    m' := m;
    if Registered(c).Some? {
      m' := AddListToFix(doc[..], m, Registered(c).value);
    }
    assert (s1, m', removed) == DiscoverStep(s, m, c);
  }

  /** The change loop of `modelChangePostFixer`, in place on the root's children. */
  method DiscoverChanges(doc: array<Block>, changes: seq<Change>) returns (m: HeadMap, applied: bool)
    requires ValidChanges(doc[..], changes)
    modifies doc
    ensures ValidMap(m)
    ensures (doc[..], m, applied) == Discover(old(doc[..]), changes, EmptyMap, false)
  {
    m := EmptyMap;
    applied := false;
    var i := 0;
    while i < |changes|
      invariant 0 <= i <= |changes|
      invariant ValidChanges(doc[..], changes[i..]) && ValidMap(m) && MapsToHeads(doc[..], m)
      invariant Discover(doc[..], changes[i..], m, applied) == Discover(old(doc[..]), changes, EmptyMap, false)
    {
      var c := changes[i];
      assert changes[i..][0] == c && changes[i..][1..] == changes[i + 1..];
      ghost var before, m0, a0 := doc[..], m, applied;
      var removed;
      m, removed := DiscoverEntry(doc, m, c);
      applied := applied || removed;
      ValidChangesSameNames(before, doc[..], changes[i + 1..]);
      assert Discover(before, changes[i..], m0, a0) == Discover(doc[..], changes[i + 1..], m, applied);
      i := i + 1;
    }
    assert changes[i..] == [];
  }

  /** The repair loop of `modelChangePostFixer`, in place on the root's children. */
  method RepairRuns(doc: array<Block>, hs: seq<nat>, applied0: bool) returns (applied: bool)
    requires WellFormed(doc[..]) && forall h :: h in hs ==> h <= doc.Length
    modifies doc
    ensures (doc[..], applied) == FixRuns(old(doc[..]), hs, applied0)
  {
    applied := applied0;
    var j := 0;
    while j < |hs|
      invariant 0 <= j <= |hs| && WellFormed(doc[..])
      invariant FixRuns(doc[..], hs[j..], applied) == FixRuns(old(doc[..]), hs, applied0)
    {
      assert hs[j..][0] == hs[j] && hs[j..][1..] == hs[j + 1..];
      assert hs[j] in hs;
      RoundShape(doc[..], hs[j]);
      ListIndents.FixIndentsShape(doc[..], hs[j]);
      var changedIndents := ListIndents.FixListIndents(doc, hs[j]);
      var changedTypes := ListTypes.FixListTypes(doc, hs[j]);
      applied := applied || changedIndents || changedTypes;
      j := j + 1;
    }
    assert hs[j..] == [];
  }

  /**
   * `modelChangePostFixer` on the root's children: the change loop, then both
   * repair passes over every collected head in the map's order.
   */
  method ModelChangePostFixer(doc: array<Block>, changes: seq<Change>) returns (applied: bool)
    requires WellFormed(doc[..]) && ValidChanges(doc[..], changes)
    modifies doc
    ensures (doc[..], applied) == PostFix(old(doc[..]), changes)
  {
    var m, discovered := DiscoverChanges(doc, changes);
    ValuesAreRunHeads(doc[..], m);
    applied := RepairRuns(doc, Values(m), discovered);
  }
}
