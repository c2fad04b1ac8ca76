# Pin list model of vscode-pinit

This project models the pin list of the vscode-pinit editor extension. The user pins files into a tree view. The pinned paths live in one workspace-state slot named `"pins"`. `PinItModel` reads that slot to build the tree children, changes it through `addItem`, `removeItem` and `Clearitems`, and fires a change notification so the view re-queries. `PinItController` forwards the user commands to the model.

How the model is built:

- The slot is an `Option<seq<string>>`. `None` means never written. `Some(list)` means present, possibly empty. An empty JavaScript array is truthy, so `Some([])` counts as present.
- The event emitter is a counter `events` of the notifications fired. `State(pins, events)` is the whole model state.
- A stored string is truthy exactly when it is non-empty. The view keeps the entries that differ from `""`, and `removeItem` keeps the entries that differ from the path. Both use the one filter `Sequences.Without`.
- Node's `path.basename` is foreign code. It is modelled as the text after the last `'/'` (`PosixPath.Basename`). Three ensures describe that text completely, and `BasenameUnique` proves they have only one solution.
- Every operation is a pure function from state to state. `refresh` also returns the items it built.
- The active editor for `addPinItem` is a parameter: the path of its document, or `None` when no editor is active.

One behaviour is kept exactly as the code has it. On an absent slot, `addItem` stores the one-element list but does not call `refresh`, so the first pin fires no notification. Every later add does fire one (`AddItem`, `AddNotifiesOnlyWhenPresent`, `AddAllStores`).

## Model

| member | source | states |
|---|---|---|
| `Sequences.Without` | src/pinItExplore.ts:102-106 | the kept entries are exactly the entries of the input that differ from the value; the value no longer occurs; the result is no longer than the input |
| `Sequences.WithoutConcat` | src/pinItExplore.ts:102-106 | filtering distributes over concatenation, so kept entries stay in their original relative order |
| `Sequences.WithoutCount` | src/pinItExplore.ts:102-106 | every other value keeps its multiplicity (duplicates survive) and the removed value has multiplicity zero |
| `Sequences.WithoutLength` | src/pinItExplore.ts:50-55 | the number of kept entries is the input length minus the occurrences of the removed value |
| `Sequences.WithoutAbsent` | src/pinItExplore.ts:102-107 | filtering out a value that does not occur returns the input unchanged |
| `Sequences.WithoutIdempotent` | src/pinItExplore.ts:98-109 | filtering the same value twice equals filtering it once |
| `Sequences.WithoutCommute` | src/pinItExplore.ts:102-106 | filtering out two values gives the same result in either order |
| `Sequences.WithoutSubsequence` | src/pinItExplore.ts:102-106 | the filtered list is obtained from the input by deleting entries only, never reordering |
| `PosixPath.Basename` | src/pinItExplore.ts:20-23 | the name is a separator-free suffix of the path that is the whole path or is preceded by a separator |
| `PosixPath.BasenameUnique` | src/pinItExplore.ts:20-23 | any suffix with those three properties is the basename, so the label is determined by the path alone |
| `PosixPath.BasenameOfJoin` | src/pinItExplore.ts:21-23 | the basename of `dir/name` is `name` when `name` has no separator |
| `PinItems.MakeItem` | src/pinItExplore.ts:20-23 | a constructed item keeps its path; its label has no separator and is a suffix of the path |
| `PinItems.ItemDeterminedByPath` | src/pinItExplore.ts:20-23 | two constructed items are equal exactly when their paths are equal |
| `PinItems.ItemNameIsLastSegment` | src/pinItExplore.ts:23 | the label of a pin for `dir/name` is `name` |
| `PinItModel.GetChildren` | src/pinItExplore.ts:44-61 | no children under an element or for an absent slot; every returned item has a non-empty stored path and the label derived from it |
| `PinItModel.ChildrenStep` | src/pinItExplore.ts:50-55 | visiting one more stored entry adds its item at the end exactly when the entry is non-empty |
| `PinItModel.CollectChildren` | src/pinItExplore.ts:48-57 | the `forEach` loop that pushes one item per truthy entry builds exactly the children of the functional definition |
| `PinItModel.Refresh` | src/pinItExplore.ts:68-81 | the stored list is unchanged, exactly one notification fires, and the returned items are those `getChildren` gives for the root |
| `PinItModel.AddItem` | src/pinItExplore.ts:87-96 | the slot becomes present; an absent slot becomes the single path; a present list gains the path at the end with every earlier entry in place; exactly one notification fires when the list was present and none when it was absent, so the count never drops |
| `PinItModel.RemoveItem` | src/pinItExplore.ts:98-110 | an absent slot is left as it is and nothing fires; a present list loses every occurrence of the path, keeps the multiplicity of every other entry (empty strings included) in original order, and one notification fires |
| `PinItModel.ClearItems` | src/pinItExplore.ts:112-115 | the slot ends present and empty, never absent, and one notification fires |
| `PinItProperties.ShownIsTruthyEntries` | src/pinItExplore.ts:49-57 | the root view shows the non-empty stored paths in stored order, each as the item built from its path |
| `PinItProperties.ChildrenCount` | src/pinItExplore.ts:50-55 | the number of children is the stored length minus the number of empty strings |
| `PinItProperties.ChildrenKeepDuplicates` | src/pinItExplore.ts:50-55 | each non-empty path is shown as many times as it is stored; the empty string is never shown |
| `PinItProperties.ChildrenInStoredOrder` | src/pinItExplore.ts:50-55 | the children of a concatenated list are the children of the first part followed by those of the second |
| `PinItProperties.ShownMembership` | src/pinItExplore.ts:51-54 | a path is shown if and only if it is non-empty and stored |
| `PinItProperties.AddThenChildren` | src/pinItExplore.ts:87-96 | after an add, the view is the old view plus the new item at the end; an empty path is stored but not shown |
| `PinItProperties.AddNotifiesOnlyWhenPresent` | src/pinItExplore.ts:89-95 | the first add on an absent slot fires nothing, and the add after it fires one notification |
| `PinItProperties.AddAllStores` | src/pinItExplore.ts:87-96 | adding paths one by one appends them in order; from a present list each add notifies; from an absent slot the list becomes the paths and one fewer notification fires |
| `PinItProperties.AddAllThenChildren` | src/pinItExplore.ts:87-96 | starting with nothing pinned, after any run of adds the view shows every non-empty added path, in order, duplicates included |
| `PinItProperties.RemoveThenChildren` | src/pinItExplore.ts:98-109 | after a remove on a present list, the view is the old view without that path |
| `PinItProperties.RemoveMissingPath` | src/pinItExplore.ts:101-108 | removing a path that is not stored keeps the same list and still fires one notification |
| `PinItProperties.RemoveIdempotent` | src/pinItExplore.ts:98-109 | removing a path twice stores what removing it once stores |
| `PinItProperties.AddThenRemove` | src/pinItExplore.ts:87-109 | removing a path just added removes every copy of it and nothing else |
| `PinItProperties.ClearIdempotent` | src/pinItExplore.ts:112-115 | clearing twice stores the same empty list, and the second clear still notifies |
| `PinItProperties.ClearThenChildren` | src/pinItExplore.ts:112-115 | after a clear the view is empty and the slot is present, so the next add notifies |
| `PinItProperties.RefreshKeepsChildren` | src/pinItExplore.ts:68-81 | a refresh does not change what the view shows |
| `PinItController.AddPinItem` | src/pinItExplore.ts:140-147 | with no active editor nothing changes; otherwise the stored list becomes the old list (or nothing, when absent) followed by the editor's path, empty paths included; the view gains its item unless the path is empty; exactly one notification fires when the list was present and none when it was absent, so the count never drops |
| `PinItController.RemovePinItem` | src/pinItExplore.ts:150-152 | an absent slot is untouched; on a present list the slot stays present, every copy of the path is gone, every other entry (empty strings included) keeps its multiplicity and order, the view loses exactly that path, and one notification fires |
| `PinItController.ClearPinItems` | src/pinItExplore.ts:154-156 | the stored list is exactly `[]`, so the view is empty, and one notification fires |
| `PinItScenarios.FirstAddScenario` | src/pinItExplore.ts:87-96 | adding `/a/b.txt` to an empty workspace shows one item labelled `b.txt` and fires nothing |
| `PinItScenarios.RemoveAllCopiesScenario` | src/pinItExplore.ts:98-109 | removing `/a` from `["/a", "/b", "/a"]` stores `["/b"]` |
| `PinItScenarios.ClearAbsentScenario` | src/pinItExplore.ts:112-115 | clearing an absent slot stores `[]` and fires once |
| `PinItScenarios.SkipEmptyScenario` | src/pinItExplore.ts:49-57 | an empty string between two paths is not shown |

## Left out

- `openResource` and `PinItController.openFile`: these open an editor, reveal a range and set the selection. That is editor I/O.
- `registerCommand`, `registerPinItView` and `OpenFileCommand`: these register commands and the tree provider with the host. The command-to-handler mapping is static plumbing.
- `getTreeItem`, `getParent`, `contextValue`, the `vscode.Uri` and the open-file command attached to each `PinItem`: these are host adapter code with no logic over the list.
- The `EventEmitter`, the Promise/async wrapping and the `try/catch` in `refresh`: the notification is a counter and every operation is synchronous. The model has no store-read failure to propagate.
- `workspaceState.update` is not awaited in the code. The model assumes the slot holds the written value at once, as the host's in-memory state does.
- Entries of the stored `any[]` that are not strings (numbers, objects, `null`): the model stores strings only, and for strings truthiness means non-empty.
- PosixPath.Basename: does not model Node's stripping of trailing separators (`/a/b/` has basename `b` in Node, `""` here). It also does not model Windows back-slash separators, because `path.basename` is a foreign library.
- The unused `PinItemCollection` interface and `src/extension.ts`: the interface has no behaviour, and `src/extension.ts` holds activation glue and commented-out code.
- `test/suite/extension.test.ts`: its only real test opens an editor; the others are placeholder array assertions with nothing to model.
