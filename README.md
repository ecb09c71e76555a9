# Description lists for CKEditor 5: a verified model

This project models the algorithmic core of a CKEditor 5 plugin for
description lists (`<dl>`, `<dt>`, `<dd>`). In the editor's model a list is
flat: a sequence of sibling `descriptionListItem` elements, each with a
`listType` and a `listIndent` attribute. In the editing view it is a tree of
nested `dl` elements. The model covers the following parts:

* the list post-fixer of `src/converters.js`. It discovers which runs of list
  items a change touched, strips list attributes from inserted non-list
  elements, and repairs each touched run in two passes: `_fixListIndents`
  clamps indent jumps, and `_fixListTypes` makes items follow the type
  established at their level;
* the paste fixer, which shifts pasted list items to the depth of the item
  they are pasted into;
* the upcast helpers: `getIndent`, `cleanList`, `cleanListItem`, and the
  offset arithmetic of `viewToModelPosition`;
* `getViewListItemLength`, in both editing plugins;
* the Enter, Backspace and Tab decisions of the newer editing plugin;
* both toggle commands.

Modules, one per source concern:

| module | file | models |
|---|---|---|
| `Blocks` | blocks.dfy | a block record, list items, runs of list items |
| `ListIndents` | listindents.dfy | `_fixListIndents` |
| `ListTypes` | listtypes.dfy | `_fixListTypes` |
| `PostFixer` | postfixer.dfy | `modelChangePostFixer`, `_addListToFix` |
| `PasteFixer` | pastefixer.dfy | `modelIndentPasteFixer` |
| `ViewTree` | viewtree.dfy | view nodes, `isList` |
| `Upcast` | upcast.dfy | `getIndent`, `cleanList`, `cleanListItem` |
| `PositionMapping` | positionmapping.dfy | `viewToModelPosition` |
| `LegacyEditing` | legacyediting.dfy | `getViewListItemLength` of the older plugin |
| `Editing` | editing.dfy | `getViewListItemLength` and the key handlers of the newer plugin |
| `Command` | command.dfy | the newer `DescriptionListCommand` |
| `LegacyCommand` | legacycommand.dfy | the older `DescriptionListCommand` |

State the source changes in place is modelled as state:

* The post-fixer and the paste fixer work on an `array<Block>` (the root's
  children, or the pasted blocks).
* The cleaners are methods of a `ViewElement` class whose `children` they
  reassign.
* The newer command is a class with `value` and `isEnabled` fields.

Each in-place method is proved equal to a specification function. The
properties are proved about those functions.

The two plugins spell the model element differently. `converters.js` and
the older plugin use `descriptionListItem` (`Blocks.ListItemName`). The
newer plugin uses `descriptionlistItem` (`Editing.NewItemName`,
`Command.NewItemName`). The model keeps both spellings as written.

Host services become parameters:

* the mapper's `toModelElement`/`createPositionBefore` and `getModelLength`;
* the schema's `checkChild` and `isObject` answers;
* the consumable test;
* whether a command is enabled;
* the state of the selection.

A view item's ancestors are given as a chain of (element name, previous
sibling) pairs, nearest first.

## Model

| member | source | states |
|---|---|---|
| Blocks.RunEnd | src/converters.js:548 | the pass loop stops at the first index at or after the start that is not a list item; every index before it is one |
| Blocks.RunHead | src/converters.js:527-538 | walking back through list-item siblings ends at the first item of the run, and every element between it and the start is a list item |
| ListIndents.ClampStep | src/converters.js:551-563 | for an item deeper than the ceiling, `fixBy` lies between 1 and the item's indent, and the new indent is the item's indent minus `fixBy`, so it is strictly smaller |
| ListIndents.FixLoop | src/converters.js:548-574 | the pass from one item on, with the running ceiling `maxIndent` and the current `fixBy`; it keeps the number of blocks. What it does to them is stated by `FixLoopShape` and `FixLoopIdentity` |
| ListIndents.FixIndents | src/converters.js:544-575 | `_fixListIndents` started at the run head with ceiling 0 and no `fixBy`; it keeps the number of blocks. Its effect is stated by `FixIndentsShape`, `FixIndentsIdentityIff` and `FixIndentsLowersSum` |
| ListIndents.FixLoopShape | src/converters.js:548-574 | the pass rewrites only list items of the run, and only their `listIndent`, always to a strictly smaller value; a well-formed root stays well formed |
| ListIndents.LoweredWellFormed | src/converters.js:565 | the pass only ever writes a number into `listIndent`, so every list item keeps the attribute |
| ListIndents.HeadGetsIndentZero | src/converters.js:551-556 | the first item of the run always ends at indent 0 |
| ListIndents.FixIndentsShape | src/converters.js:544-575 | the whole pass: blocks outside the run are unchanged; run items keep name, type and other attributes and get an indent no larger than before |
| ListIndents.FixIndentsIdentityIff | src/converters.js:548-573 | the pass changes nothing if and only if the run starts at indent 0 and every item is at most one level deeper than the item before it |
| ListIndents.FixLoopIdentity | src/converters.js:568-571 | on a well-indented run, an untouched item resets `fixBy` and raises the ceiling to its own indent plus one, so the rest of the pass is the identity |
| ListIndents.FixIndentsLowersSum | src/converters.js:551-567 | a pass that changes anything strictly lowers the sum of all indents: the measure that makes the host's re-run-until-quiet loop terminate |
| ListIndents.IndentSumMonotone | src/converters.js:562-565 | lowering some indents and raising none lowers the indent sum, strictly when some indent drops |
| ListIndents.FixIndentsUntilQuiet | src/converters.js:544-575 | re-running the pass until it changes nothing terminates, in a well-indented run that is a fixed point of the pass, with names and types kept |
| ListIndents.OnePassIsNotEnough | src/converters.js:544-575 | one pass turns indents 0, 3, 5 into 0, 1, 3, which is still not well indented |
| ListIndents.FixListIndents | src/converters.js:544-575 | the in-place loop leaves exactly the specification's result, and reports a change exactly when the root changed |
| ListTypes.StackStep | src/converters.js:582-599 | one step of the pass truncates the stack when the indent drops, retypes the item to the entry at its level when that entry is truthy, and otherwise records the item's type there |
| ListTypes.FixLoop | src/converters.js:581-604 | the pass from one item on, with the types stack and the previous item's indent; it keeps the number of blocks. Its effect is stated by `StackStep` and `FixLoopMatchesReference` |
| ListTypes.FixTypes | src/converters.js:577-605 | `_fixListTypes` started at the run head with an empty stack and no previous item; it keeps the number of blocks. Its effect is stated by `FixTypesReference`, `FixTypesKeepsIndents` and `FixTypesIdempotent` |
| ListTypes.FixLoopMatchesReference | src/converters.js:581-604 | loop invariant against the reference: items already passed carry their expected type, and the truthy stack entries are exactly the types established so far |
| ListTypes.FixTypesReference | src/converters.js:577-605 | every run item gets its expected type (the earliest truthy type at its level in the current stretch, or its own); nothing else changes |
| ListTypes.FixedItemHasExpectedType | src/converters.js:588-599 | after the pass, every run item already has the type the reference definition expects of it |
| ListTypes.FixTypesKeepsIndents | src/converters.js:588 | the pass never changes `listIndent`, never retypes an item at indent 0, and keeps names |
| ListTypes.EstablishedStable | src/converters.js:584-586 | a type established at level L stays established until the run goes shallower than L and the stack is truncated |
| ListTypes.FixTypesConsistent | src/converters.js:588-599 | after the pass, within a stretch that never goes shallower than level L > 0, every item at L has the type of an earlier item at L whose type is set |
| ListTypes.EstablishedAfterFix | src/converters.js:589-598 | the pass does not alter the established types it reads |
| ListTypes.FixTypesIdempotent | src/converters.js:577-605 | running the pass twice gives the same root as running it once |
| ListTypes.FixListTypes | src/converters.js:577-605 | on a root whose list items all carry `listIndent`, the in-place loop over the typed stack leaves exactly the specification's result, and reports a change exactly when the root changed |
| PostFixer.AddToFix | src/converters.js:511-542 | recording a position keeps every key a list item mapped to the head of its run, keeps earlier values in place, and makes the touched run's head a value |
| PostFixer.AddListToFix | src/converters.js:511-542 | the backward walk with early returns computes the same map as `AddToFix` |
| PostFixer.WalkToHead | src/converters.js:521-538 | the backward walk meets a key exactly when some element between the run head and the start is a key; otherwise it stops at the run head |
| PostFixer.PutValid | src/converters.js:518 | `Map.set` keeps keys distinct and in insertion order, a re-set key keeping its place |
| PostFixer.PutHead | src/converters.js:540 | recording an item under its run head keeps the map's invariants |
| PostFixer.KeyInRunGivesHead | src/converters.js:523-537 | when the walk back meets an element that is already a key, the run's head is already among the values, so returning early loses nothing |
| PostFixer.StripListAttributes | src/converters.js:456-484 | the five removals leave no list attribute, keep the name and every other attribute, and change the element exactly when it had one |
| PostFixer.StripInPlace | src/converters.js:456-484 | the removals done in place on the element give the same result, and the flag reports whether anything was removed |
| PostFixer.StripStep | src/converters.js:452-484 | the stripping part of a change entry keeps names and well-formedness, strips exactly the inserted element, and reports a removal exactly when the root changed |
| PostFixer.Registered | src/converters.js:448-500 | the position a change entry hands to `_addListToFix`: the entry's position for an inserted or removed list item, the position after an inserted non-item, the range start for a `listIndent` or `listType` change, and none otherwise |
| PostFixer.DiscoverStep | src/converters.js:449-501 | one change entry keeps names and the map's invariants, registers the touched run, and strips the inserted element; its flag is true exactly when the root changed |
| PostFixer.DiscoverEntry | src/converters.js:449-501 | the in-place iteration equals `DiscoverStep` |
| PostFixer.Discover | src/converters.js:448-502 | the change loop keeps names and well-formedness, and every key maps to the head of its run |
| PostFixer.DiscoverChanges | src/converters.js:448-502 | the in-place change loop equals `Discover` |
| PostFixer.DiscoverFindsTouchedRuns | src/converters.js:449-501 | every run touched by a registering change entry has its head among the collected values |
| PostFixer.DiscoverStrips | src/converters.js:451-484 | after the change loop, every inserted element that is neither a list item nor text carries no list attribute |
| PostFixer.DiscoverKeepsStripped | src/converters.js:448-502 | an element without list attributes gets none back from the change loop |
| PostFixer.ValuesAreRunHeads | src/converters.js:504 | every value of `itemToListHead` is the first item of a run |
| PostFixer.DiscoverUnapplied | src/converters.js:448-502 | a change loop that leaves `applied` false removed nothing and started from false |
| PostFixer.FixRunsUnapplied | src/converters.js:504-507 | a repair loop that leaves `applied` false changed nothing |
| PostFixer.FixRunsKeepsNonItems | src/converters.js:504-507 | the repair passes touch only list items, keep names and keep the root well formed |
| PostFixer.RepairRuns | src/converters.js:504-507 | the in-place repair loop equals the specification, with its flag |
| PostFixer.FixRuns | src/converters.js:504-507 | the repair loop over the collected heads: the indent pass, then the type pass, on each head in turn, or-ing each change into `applied`; it keeps the number of blocks. Its effect is stated by `FixRunsHeadsZero`, `FixRunsKeepsNonItems` and `FixRunsUnapplied` |
| PostFixer.PostFix | src/converters.js:442-509 | `modelChangePostFixer`: the change loop, then the repair loop over the collected heads in insertion order; it keeps the number of blocks. Its effect is stated by `PostFixStripsInserted`, `PostFixTouchedRunsStartAtZero` and `PostFixFalseMeansUnchanged` |
| PostFixer.PostFixStripsInserted | src/converters.js:451-484 | the post-fixer's result has no `listIndent`, `listType`, `listStyle`, `listReversed` or `listStart` on any inserted non-list, non-text element |
| PostFixer.FixRunsHeadsZero | src/converters.js:504-507 | after the repair loop every processed head is at indent 0 |
| PostFixer.FixRunsKeepsZeroHead | src/converters.js:504-507 | repairing other runs never moves a run head that is already at indent 0 |
| PostFixer.PostFixTouchedRunsStartAtZero | src/converters.js:442-507 | the head of every run a change entry touched leaves the post-fixer at indent 0 |
| PostFixer.PostFixFalseMeansUnchanged | src/converters.js:442-509 | a post-fixer that returns false changed nothing |
| PostFixer.ModelChangePostFixer | src/converters.js:442-509 | the in-place post-fixer leaves exactly the specification's root and returns its `applied` flag |
| PasteFixer.RefItem | src/converters.js:650-656 | the reference item is the position's parent, if that is a list item, and otherwise the node before, if that is one |
| PasteFixer.IndentChange | src/converters.js:663-666 | the shift is positive exactly when there is a reference item with a positive indent |
| PasteFixer.ShiftLoop | src/converters.js:668-672 | the `while` loop from one block on, adding the shift to each list item until the first non-item; it keeps the number of blocks. Its effect is stated by `ShiftLoopShifts` |
| PasteFixer.ShiftLoopShifts | src/converters.js:668-672 | from the given block on, each list item of the leading run gets the shift added to its indent; every other block is kept |
| PasteFixer.ShiftLeadingItems | src/converters.js:668-672 | the in-place loop leaves exactly the specification's shifted content |
| PasteFixer.PasteFix | src/converters.js:631-676 | when the fixer acts, the leading run of pasted items is shifted and the rest is kept; when it does not, the content is unchanged; only `listIndent` ever changes |
| PasteFixer.PasteFixChangesIff | src/converters.js:647-666 | the content changes if and only if it starts with a list item and the reference indent is positive |
| PasteFixer.PasteFitsUnderReference | src/converters.js:660-673 | pasted items that form a well-indented list start at the reference depth and still deepen by at most one level per item |
| PasteFixer.PasteAfterTopLevelItem | src/converters.js:650-666 | items pasted right after an item at indent 0 keep their indents, as the shift is 0 |
| PasteFixer.PasteInsideNestedItem | src/converters.js:660-673 | items at indents 0 and 1 pasted inside an item at indent 2 end at 2 and 3 |
| PasteFixer.ModelIndentPasteFixer | src/converters.js:631-676 | the in-place fixer leaves exactly the specification's content |
| ViewTree.IsList | src/converters.js:842-844 | `isList`: the node is a `dl` element |
| ViewTree.Walkable | src/descriptionlist/descriptionlistediting.js:170-180 | the inputs `getViewListItemLength` walks without throwing: the node is an element, and so, recursively, is every child of each of its `dl` children |
| ViewTree.Items | src/descriptionlist/descriptionlistediting.js:170-180 | the reference for the item count: the item itself first, then the items reachable through its nested lists; the length functions are tied to it only on walkable items |
| LegacyEditing.GetViewListItemLength | src/descriptionlistediting.js:92-104 | on an item the source can walk, the length is at least 1 and equals the number of view list items reachable from the item through nested `dl` elements, the item included |
| LegacyEditing.ListsLength | src/descriptionlistediting.js:95-101 | only `dl` children contribute, each with the lengths of its children |
| LegacyEditing.MembersLength | src/descriptionlistediting.js:97-99 | the inner loop sums the lengths of a list's children |
| LegacyEditing.NoListsAddNothing | src/descriptionlistediting.js:95-101 | children that are not `dl` add nothing to the length |
| LegacyEditing.NoListChildMeansOne | src/descriptionlistediting.js:92-104 | an element with no `dl` child has length 1 |
| LegacyEditing.TextInListNotWalkable | src/descriptionlistediting.js:97 | a text node directly inside a nested `dl` is outside the walkable inputs: there the source calls `getChildren` on a text node and throws |
| Editing.GetViewListItemLength | src/descriptionlist/descriptionlistediting.js:170-180 | on a walkable item, the newer plugin's loops compute the same length as the older plugin's copy: at least 1, the number of reachable items |
| Editing.NestedItemLength | src/descriptionlist/descriptionlistediting.js:170-180 | a `dd` holding text and a `dl` of two empty items can be walked and has length 3 |
| Editing.OnEnter | src/descriptionlist/descriptionlistediting.js:106-114 | Enter runs `outdentList`, and stops the event, exactly when the view selection is in a `dd` and the model selection is collapsed in an empty `descriptionlistItem` |
| Editing.OnDelete | src/descriptionlist/descriptionlistediting.js:117-141 | Backspace runs `outdentList` exactly when the view selection is in a `dd` and it deletes backward from a collapsed selection at the start of a `descriptionlistItem` whose previous sibling is not one |
| Editing.OnTab | src/descriptionlist/descriptionlistediting.js:142-151 | Tab picks `outdentList` with Shift and `indentList` otherwise, and runs it and stops the event exactly when the view selection is in a `dd` and that command is enabled |
| Editing.OutsideDdIgnored | src/descriptionlist/descriptionlistediting.js:106-151 | with the view selection outside a `dd` none of the three listeners is called, so none runs a command or stops the event |
| Editing.EnterAndBackspaceAgreeInEmptyFirstItem | src/descriptionlist/descriptionlistediting.js:106-141 | in an empty first list item Enter and backward Backspace do the same: both outdent when the view selection is in a `dd`, and both ignore the key otherwise |
| Upcast.CountFollowingItem | src/converters.js:884-899 | together with the count of `dd`/`dt` ancestors, the count never exceeds the number of ancestors |
| Upcast.GetIndent | src/converters.js:876-904 | the indent is the number of `dd`/`dt` ancestors plus the number of other ancestors whose previous sibling is a `dd`, and at most the number of ancestors |
| Upcast.CountItemAncestors | src/converters.js:883-884 | the number of `dd`/`dt` ancestors is at most the number of ancestors |
| Upcast.BareListsAddNothing | src/converters.js:884-899 | ancestors that are neither items nor right after a `dd`, such as a `dl` directly in a `dl`, add nothing |
| Upcast.GetIndentExamples | src/converters.js:849-872 | the three documented normalisations give indents 1, 0 and 1 |
| Upcast.ListKeptMembers | src/converters.js:272-285 | `cleanList` keeps exactly the `dd` and `dl` children, so `dt` and text children go |
| Upcast.ListKept | src/converters.js:272-285 | the children `cleanList` keeps, in their order; it never keeps more than there were. Which ones it keeps is stated by `ListKeptMembers` and `ListKeptSnoc` |
| Upcast.ListKeptIdempotent | src/converters.js:272-285 | cleaning a list twice is cleaning it once |
| Upcast.ListKeptSnoc | src/converters.js:277-283 | one step of the loop over cached children keeps the child exactly when it is a `dd` or a list |
| Upcast.ItemKeptSplit | src/converters.js:295-316 | `cleanListItem` keeps every child up to and including the first list, then only lists; with no list it keeps everything |
| Upcast.ItemKept | src/converters.js:295-316 | the children `cleanListItem` keeps: each child up to and including the first list, then `OnlyLists` of the rest; it never keeps more than there were. Its closed form is `ItemKeptSplit` |
| Upcast.OnlyLists | src/converters.js:306-308 | the children kept after the first list, in their order; it never keeps more than there were. Which ones it keeps is stated by `OnlyListsMembers` |
| Upcast.OnlyListsMembers | src/converters.js:306-308 | after the first list, exactly the lists are kept |
| Upcast.OnlyListsIdempotent | src/converters.js:306-308 | keeping only the lists twice is keeping them once |
| Upcast.ItemKeptSnoc | src/converters.js:305-314 | one step of the loop keeps the child unless a list came before it and it is not a list |
| Upcast.ItemKeptIdempotent | src/converters.js:295-316 | cleaning a list item twice is cleaning it once |
| Upcast.ViewElement.CleanList | src/converters.js:272-285 | removing children one by one from the live list while walking a cached copy leaves the filtered children; nothing changes when the consumable test fails |
| Upcast.ViewElement.CleanListItem | src/converters.js:295-316 | the `foundList` loop leaves the children `ItemKept` describes; nothing changes when the consumable test fails |
| Upcast.ViewElement.RemoveChild | src/converters.js:281 | `_remove` takes the child out of the live children and keeps the others in order |
| PositionMapping.PrecedingModelLength | src/converters.js:403-410 | the loop starts at 1 and adds the model length of each contiguous `dl` sibling before the position |
| PositionMapping.PrecedingListsLength | src/converters.js:403-410 | the summed model lengths of the contiguous `dl` siblings right before a child, as the `previousSibling` walk adds them; `PrecedingIsRunSum` gives its closed form |
| PositionMapping.ViewToModelPosition | src/converters.js:362-417 | a detached position is left to other callbacks; in a `dl` the position maps to the position before the node after it, at the end past the model length of the last node, and an empty `dl` is unmapped; in a `dd` or `dt` right after a run of lists it maps past the item plus the summed model lengths of exactly that run; every other position is left to other callbacks |
| PositionMapping.MapViewToModel | src/converters.js:362-417 | the callback computes the specification's mapping: before the node after, at the end shifted by the model length of the node before, or in a `dd`/`dt` after lists shifted by 1 plus their lengths |
| PositionMapping.PrecedingIsRunSum | src/converters.js:403-410 | the loop's total is the summed model length of exactly the run of lists right before the position |
| PositionMapping.ShiftCountsEveryList | src/converters.js:403-412 | when every list counts at least one model item, the shift counts at least one per preceding list |
| PositionMapping.OtherParentsNotHandled | src/converters.js:372-416 | a position in a text node or in an element other than `dl`, `dd` or `dt` is left to other callbacks |
| Command.Toggle | src/descriptionlist/descriptionlistcommand.js:49-64 | when turning off, a list item is renamed `paragraph` with its attributes kept; a non-item always becomes a list item of the type at indent 0; when turning on, a list item only gets its type set |
| Command.ExecuteAll | src/descriptionlist/descriptionlistcommand.js:40-68 | eligible blocks are toggled and every other selected block is left as it is |
| Command.EligibleIndices | src/descriptionlist/descriptionlistcommand.js:43-44 | the filter keeps exactly the blocks that can become list items, in selection order |
| Command.CanBecomeListItem | src/descriptionlist/descriptionlistcommand.js:108-109 | `checkCanBecomeListItem`: the parent allows a `descriptionlistItem` child and the block is not an object |
| Command.TurnOff | src/descriptionlist/descriptionlistcommand.js:46 | the negation of a forced value when one is given, else the command's current value |
| Command.GetValue | src/descriptionlist/descriptionlistcommand.js:75-79 | `_getValue`: the first selected block exists, is a `descriptionlistItem` and has the command's type |
| Command.CheckEnabled | src/descriptionlist/descriptionlistcommand.js:86-99 | `_checkEnabled`: enabled when the value is true; otherwise disabled with no selected block, else enabled exactly when the first block can become a list item |
| Command.DescriptionListCommand.Execute | src/descriptionlist/descriptionlistcommand.js:40-68 | the reverse loop over the filtered blocks leaves exactly `ExecuteAll`, with `turnOff` taken from the forced value when given |
| Command.DescriptionListCommand.Refresh | src/descriptionlist/descriptionlistcommand.js:26-29 | `value` and `isEnabled` are recomputed from the selection |
| Command.DescriptionListCommand.constructor | src/descriptionlist/descriptionlistcommand.js:18-21 | the command keeps the list type it is created for |
| Command.EnabledAfterRefresh | src/descriptionlist/descriptionlistcommand.js:75-99 | after refresh the command is enabled exactly when a first block exists and is a list item of the type or can become one; the value is true exactly when the first block is such a list item |
| Command.TurnOnMakesItems | src/descriptionlist/descriptionlistcommand.js:55-64 | turning on makes every eligible block a list item of the command's type |
| Command.TurnOnSetsValue | src/descriptionlist/descriptionlistcommand.js:55-79 | after turning on a selection whose first block is eligible, the value is true |
| Command.TurnOnIdempotent | src/descriptionlist/descriptionlistcommand.js:55-64 | turning a block on twice is turning it on once |
| Command.ToggleRoundTrip | src/descriptionlist/descriptionlistcommand.js:50-59 | turning a plain paragraph on and off gives it back, except for the list attributes left for the post-fixer |
| Command.TurnOffConvertsParagraphs | src/descriptionlist/descriptionlistcommand.js:55-59 | a turn-off still converts a paragraph, since the non-item branch ignores `turnOff` |
| Command.ToggleParagraphAndItem | src/descriptionlist/descriptionlistcommand.js:40-68 | toggling `dt` on a paragraph and a `dd` item makes both `dt` items at indent 0 |
| LegacyCommand.SetType | src/descriptionlistcommand.js:41-52 | every selected block ends with the command's type, and keeps its name, indent and other attributes; a block already of the type is untouched |
| LegacyCommand.Execute | src/descriptionlistcommand.js:34-55 | the reverse loop sets the type on every selected block, with no filter and no rename |
| LegacyCommand.ExecuteIdempotent | src/descriptionlistcommand.js:34-55 | executing twice sets the same types as executing once |

## Left out

- View-tree surgery converters (`modelViewInsertion`, `modelViewRemove`, `hoistNestedLists`, `modelViewChangeType`, `modelViewMergeAfterChangeType`, `modelViewSplitOnInsert`, `modelViewMergeAfter`): they are built on the host's view writer and on helpers from `./utils`; src/utils.js is not part of this model.
- `viewModelConverter`, `viewToModelListItemChildrenConverter` and `findNextListItem`: they rely on the host's conversion API, schema and tree walker. Only `getIndent`, which they use, is modelled.
- `modelToViewPosition`: its result is whatever the host's view tree walker yields.
- `modelChangePostFixerTODO`: it only logs and returns false.
- Plugin registration, dispatcher and mapper wiring, `afterInit` child-command registration, and `_preInit`. The `afterInit` slip at src/descriptionlist/descriptionlistediting.js:165, which registers `outdentList` on the `indent` command, is wiring and is not modelled.
- UI, icons, index exports and debug logging.
- The change loop's registration of list items nested inside an inserted element (src/converters.js:486-489). The root is modelled as one flat sequence of siblings, so an inserted element has no model children.
- The change log and positions: each entry is given as an offset into the current root. An inserted element is assumed to sit at its position under its name (`PostFixer.ValidChange`), because the differ guarantees that. Change entries positioned inside an element, such as text typed into a list item, have no counterpart in this flat log of the root's children.
- `PostFixer.PostFix`: the returned flag is the disjunction of the per-step change flags, and each step's flag is proved true exactly when that step changed the root. Only the direction "false means the root is unchanged" is proved end to end. "True means the final root differs from the initial one" is not proved.
- ListIndents.FixListIndents: requires every list item to carry `listIndent` (`Blocks.WellFormed`). The model assumes the attribute is present; the schema only permits it and does not require it, and nothing in the modelled code sets it on every item. Without it the source would compute with `undefined` and `NaN`.
- ListTypes.FixListTypes: requires `Blocks.WellFormed` too. For an item without `listIndent`, the source's `itemIndent != 0` holds and the type is read from and written to `typesStack[undefined]`; the specification function `ListTypes.FixTypes` instead reads a missing indent as 0, so its result says nothing about roots that are not well formed.
- PostFixer.ModelChangePostFixer: requires a well-formed root, for the same two passes; the model assumes the attribute is present rather than deriving it from the schema.
- The selection: blocks, positions and the document selection's state are inputs, and the choice between `selectable` and the document selection is not modelled. Whether the view selection is inside a `dd`, which decides whether the key listeners registered with the `dd` context are called at all, is an input too (`Editing.SelectionState.inDd`).
- PasteFixer.ModelIndentPasteFixer: pasted content is a sequence of siblings. A single pasted element is treated as a sequence of one: it is not followed into its own next siblings.
- PasteFixer.ModelIndentPasteFixer: a pasted item without `listIndent` is shifted from 0, where the source would produce `NaN`.
- PositionMapping.MapViewToModel: a node the mapper cannot map, or an empty `dl` at its end, gives `Unmapped`. That is where the source would throw.
- LegacyEditing.GetViewListItemLength: requires a walkable item (`ViewTree.Walkable`). A text node directly inside a nested `dl` makes the source call `getChildren` on a text node, which throws; the model does not describe that throw.
- Editing.GetViewListItemLength: requires a walkable item, for the same reason.
- ViewTree.Items: counts every child of a nested `dl`, text nodes included, as an item; it agrees with the length functions only on walkable items, the inputs they accept.
- The mapper's `getModelLength` is a parameter. The model does not tie it to `getViewListItemLength`, since the mapper registration is wiring.
- Upcast.GetIndent: takes the ancestor chain as input rather than climbing parent pointers of a tree.
- Upcast.ViewElement.CleanList and Upcast.ViewElement.CleanListItem: children are values, so removal by identity is modelled as removal by position in the live list.
- Command.DescriptionListCommand.Execute: the writer's batching and the host's `model.change` block are not modelled; the attributes it leaves on a renamed paragraph are removed by a post-fixer of the host's list package, which is not part of this model.
- The imported `IndentCommand`, `ListUtils` and converters of `@ckeditor/ckeditor5-list` are not part of this model; the key handlers take whether a command is enabled as an input.
