# Virtual OS documentation site: verified model of its interactive core

This project models the interactive parts of the Virtual OS documentation
site. Each one is stated in Dafny and its behaviour is proved:

- **Search palette** (`SearchCommand`, with the index `SearchData`).
  - The dialog opens and closes from the Cmd/Ctrl+K shortcut, the Search button and the dialog itself.
  - The query filter is case-insensitive. It works by substring on title, content and keywords, and an empty query shows everything.
  - Hits are grouped by section in first-appearance order.
  - Each hit's icon is chosen by the first-match-wins chain over substrings of its id.
  - Selecting a hit closes the dialog and navigates to the hit's id.
- **Search index facts** (`SearchDataFacts`): facts about the twelve topics.
  - The ids are distinct, and each one is an anchor of the sidebar.
  - There are five sections, laid out in blocks.
  - Each topic has a fixed icon.
  - For every query, the grouped list reads the filtered list in order.
- **Documentation sidebar** (`DocsSidebar`).
  - The navigation tree, and the list of expanded parents with its toggle.
  - The active-entry test, and the mobile-menu flag.
- **Code sandbox** (`CodeSandbox`).
  - The typewriter that fills the editor, one character per tick, once the component becomes visible.
  - The Run button, which plays back four canned terminal lines, one per tick.
  - Reset, editing and copy.
  - The live intervals are explicit state, so the model shows what the source does when a reset happens while an interval is still running:
    - The typewriter's next tick truncates the editor again.
    - A live run keeps appending to the cleared terminal.
- **Project structure tree** (`ProjectStructure`).
  - The constant file tree and the `FileTreeNode` component: a node starts open at depth 0 or 1 (depth < 2), and a click flips only a folder.
  - The tree of mounted components. Closing a folder unmounts its children, so reopening it mounts them fresh with their initial flags.
  - The lines the tree renders: 25 of the 27 nodes are visible at first, and sibling names are unique React keys.

Supporting modules:

| module | contents |
|---|---|
| `Text` | ASCII lower-casing and `includes` as `Contains` |
| `Seqs` | order-preserving subsequences and distinctness |
| `Wrappers` | `Option` |

These choices model the source's runtime explicitly:

- **Component state.** Each component's state is a Dafny `class` whose fields are the `useState` variables. Each event handler or timer callback is a method whose `ensures` gives the whole new state.
- **React rendering.** Rendering results are functions of that state.
- **Timers.** A `setInterval` callback is a tick method. Its captured counter is kept in an `Option` field that is `None` once the interval is cleared.

## Model

| member | source | states |
|---|---|---|
| SearchCommand.Matches | src/components/docs/SearchCommand.tsx:55-57 | the per-item test: the lower-cased title, content or some lower-cased keyword contains the (already lower-cased) query |
| SearchCommand.KeepMatching | src/components/docs/SearchCommand.tsx:54-58 | `searchData.filter(...)`: no more items than its input, each of them an input item that passes the test |
| SearchCommand.Filter | src/components/docs/SearchCommand.tsx:50-58 | `filteredItems`: the empty query returns the list itself; any result is one of the listed items and there are no more of them |
| SearchCommand.FilteredItems | src/components/docs/SearchCommand.tsx:50-59 | the palette's results are drawn from the search index, at most twelve of them |
| SearchCommand.FilterSpec | src/components/docs/SearchCommand.tsx:50-59 | an empty query returns the whole index; otherwise an item is kept iff its lower-cased title, content or some keyword contains the lower-cased query |
| SearchCommand.KeepMatchingMembers | src/components/docs/SearchCommand.tsx:54-58 | the filter keeps exactly the items that match, for every item |
| SearchCommand.KeepMatchingSubsequence | src/components/docs/SearchCommand.tsx:54-58 | the filtered list is an order-preserving subsequence of its input |
| SearchCommand.FilterSubsequence | src/components/docs/SearchCommand.tsx:50-59 | the results are a subsequence of the index, never contain an item more often than the index, and have no duplicates when the index has none |
| SearchCommand.FilterCaseInsensitive | src/components/docs/SearchCommand.tsx:53-57 | two queries equal up to ASCII letter case give identical results |
| SearchCommand.MatchesSubstring | src/components/docs/SearchCommand.tsx:55-57 | an item matching a query matches every substring of it |
| SearchCommand.KeepMatchingMonotone | src/components/docs/SearchCommand.tsx:54-58 | matches for a longer query are a subsequence of the matches for any substring of it |
| SearchCommand.FilterMonotone | src/components/docs/SearchCommand.tsx:50-59 | for any query and any substring of it (the empty one included), the results for the query are among the substring's, in the same order: typing more characters only narrows the results |
| SearchCommand.Sections | src/components/docs/SearchCommand.tsx:62-69 | the keys of `groups` in the order the `forEach` creates them: each hit's section, added the first time it is seen (its properties are `SectionsSpec` and `LastSection`) |
| SearchCommand.InSection | src/components/docs/SearchCommand.tsx:64-67 | `groups[s]`: the hits of section `s` in the order they are pushed (its properties are `InSectionSpec` and `InSectionAbsent`) |
| SearchCommand.Flatten | src/components/docs/SearchCommand.tsx:105-108 | the listing: each key's group in key order, concatenated (proved a permutation of the hits by `GroupsPartition`, and the hits themselves by `GroupsInOrder`) |
| SearchCommand.SectionsSpec | src/components/docs/SearchCommand.tsx:62-69 | the group keys are distinct and are exactly the sections that occur among the hits |
| SearchCommand.InSectionSpec | src/components/docs/SearchCommand.tsx:64-67 | a group holds exactly the hits of its section, in their order |
| SearchCommand.InSectionAbsent | src/components/docs/SearchCommand.tsx:65 | a section not yet seen has no group yet, so the new group starts empty |
| SearchCommand.FlattenFrame | src/components/docs/SearchCommand.tsx:105-108 | adding a hit of a section outside the listed keys does not change the listing |
| SearchCommand.FlattenJoinLast | src/components/docs/SearchCommand.tsx:64-67 | a hit whose section is the last key, and no earlier key, is added at the end of the listing |
| SearchCommand.FlattenAddOne | src/components/docs/SearchCommand.tsx:105-108 | adding a hit of a listed section adds exactly that hit to the listing |
| SearchCommand.GroupsPartition | src/components/docs/SearchCommand.tsx:62-69 | the groups, listed in key order, hold every hit exactly once (a permutation of the hits) |
| SearchCommand.LastSection | src/components/docs/SearchCommand.tsx:62-69 | for section-contiguous hits, the newest group key is the section of the last hit |
| SearchCommand.GroupsInOrder | src/components/docs/SearchCommand.tsx:62-69 | when each section's hits are adjacent, the grouped listing is the hit list itself |
| SearchCommand.GroupsInOrderJoin | src/components/docs/SearchCommand.tsx:64-67 | appending a hit of the latest section extends the grouped listing by that hit |
| SearchCommand.KeepMatchingLastSection | src/components/docs/SearchCommand.tsx:54-58 | when the last item's section survives filtering, the last hit is of that section |
| SearchCommand.KeepMatchingSections | src/components/docs/SearchCommand.tsx:54-69 | the filtered hits have no section that the unfiltered items lack |
| SearchCommand.KeepMatchingContiguous | src/components/docs/SearchCommand.tsx:54-58 | filtering keeps each section's items adjacent |
| SearchCommand.FilterContiguous | src/components/docs/SearchCommand.tsx:50-59 | the results keep each section's items adjacent when the index does |
| SearchCommand.GroupBySection | src/components/docs/SearchCommand.tsx:62-69 | the forEach loop produces the keys in first-appearance order and, for each key, exactly that section's hits in order |
| SearchCommand.GetIcon | src/components/docs/SearchCommand.tsx:71-82 | an id containing "game" always gets Gamepad2; FileText is chosen exactly when the id contains none of the eight substrings |
| SearchCommand.FirstMatch | src/components/docs/SearchCommand.tsx:72-81 | the icon of the first rule that matches, with every earlier rule failing; the fallback when none matches |
| SearchCommand.GetIconIsFirstMatch | src/components/docs/SearchCommand.tsx:71-82 | the case chain of `getIcon` equals first-match-wins over its rule list with FileText as default |
| SearchCommand.SearchPalette.constructor | src/components/docs/SearchCommand.tsx:30-31 | the dialog starts closed with an empty query |
| SearchCommand.SearchPalette.KeyDown | src/components/docs/SearchCommand.tsx:34-38 | "k" with Meta or Ctrl flips the open flag; any other key changes nothing |
| SearchCommand.SearchPalette.ClickSearchButton | src/components/docs/SearchCommand.tsx:86-87 | the Search button opens the dialog and keeps the query |
| SearchCommand.SearchPalette.OpenChange | src/components/docs/SearchCommand.tsx:96 | the dialog's own open/close events set the flag to the given value |
| SearchCommand.SearchPalette.SetQuery | src/components/docs/SearchCommand.tsx:97-100 | typing replaces the query and leaves the open flag alone |
| SearchCommand.SearchPalette.Select | src/components/docs/SearchCommand.tsx:45-48 | selecting a hit closes the dialog and navigates to that hit's id |
| SearchDataFacts.IdsWrittenOut | src/data/searchData.ts:9-94 | the ids of the index, in order, are the twelve topic anchors |
| SearchDataFacts.IndexShape | src/data/searchData.ts:9-94 | the index has twelve topics with pairwise distinct ids, so `key={item.id}` is unique |
| SearchDataFacts.IndexEntriesFilled | src/data/searchData.ts:9-94 | every topic has a non-empty title, a non-empty content text and at least one keyword |
| SearchDataFacts.KeywordsLowerCase | src/data/searchData.ts:9-94 | every keyword of the index is written without upper-case letters |
| SearchDataFacts.KeywordsUnchangedByLower | src/components/docs/SearchCommand.tsx:57 | lower-casing a keyword of the index leaves it unchanged, so the keyword test is a plain substring test |
| SearchDataFacts.IdsAreNavAnchors | src/data/searchData.ts:9-94 | every topic id is an id of the sidebar's navigation tree, so each hit navigates to a real section |
| SearchDataFacts.UpToIsPrefix | src/components/docs/SearchCommand.tsx:62-69 | the group keys and contiguity of a hit list depend only on its sequence of section names |
| SearchDataFacts.IndexSections | src/data/searchData.ts:9-94 | the index's group keys are General, Features, Implementation, Guide and Reference, and each section's topics are adjacent |
| SearchDataFacts.GroupedListIsFilteredList | src/components/docs/SearchCommand.tsx:50-69 | for every query, the palette's grouped listing is exactly the filtered list in index order |
| SearchDataFacts.IndexIconsComputed | src/components/docs/SearchCommand.tsx:71-82 | the icon `getIcon` picks for each of the twelve topic ids |
| SearchDataFacts.IconsOfIndex | src/data/searchData.ts:9-94 | each topic shows its icon: FileText for introduction, how-it-works, tech-stack and project-structure; Calculator, Gamepad2, Zap, Wrench (twice), Download, Lightbulb and Rocket for the others |
| DocsSidebar.Toggle | src/components/docs/DocsSidebar.tsx:71-75 | after a toggle the id is present iff it was absent; every other id keeps its membership |
| DocsSidebar.Without | src/components/docs/DocsSidebar.tsx:73 | `prev.filter((s) => s !== id)`: never longer than its input, never contains the id, and holds only ids of the input |
| DocsSidebar.WithoutSpec | src/components/docs/DocsSidebar.tsx:73 | the filter removes exactly the id, keeps the rest in order, and is the identity when the id is absent |
| DocsSidebar.WithoutMultiset | src/components/docs/DocsSidebar.tsx:73 | the filter keeps every other id with its multiplicity |
| DocsSidebar.ToggleSpec | src/components/docs/DocsSidebar.tsx:71-75 | an absent id is appended at the end; a present id is removed everywhere, the others keeping order and multiplicity |
| DocsSidebar.ToggleTwice | src/components/docs/DocsSidebar.tsx:71-75 | toggling twice restores membership, and the exact list when the id was absent |
| DocsSidebar.ToggleDistinct | src/components/docs/DocsSidebar.tsx:71-75 | a duplicate-free expanded list stays duplicate-free |
| DocsSidebar.InitialExpandedIsParents | src/components/docs/DocsSidebar.tsx:28-68 | the initially expanded parents are exactly the entries that have children, in tree order |
| DocsSidebar.NavIdsWrittenOut | src/components/docs/DocsSidebar.tsx:28-57 | the navigation tree lists sixteen ids in display order |
| DocsSidebar.NavIdsDistinct | src/components/docs/DocsSidebar.tsx:28-57 | no id occurs twice in the navigation tree |
| DocsSidebar.IsActive | src/components/docs/DocsSidebar.tsx:82 | an entry is highlighted when its id equals the page's active section |
| DocsSidebar.AtMostOneActive | src/components/docs/DocsSidebar.tsx:82 | for any active section at most one entry of the tree is highlighted |
| DocsSidebar.Sidebar.constructor | src/components/docs/DocsSidebar.tsx:68-69 | applications and hardware start expanded and the mobile menu starts closed |
| DocsSidebar.Sidebar.IsExpanded | src/components/docs/DocsSidebar.tsx:173-180 | `expandedSections.includes(item.id)`: a parent's chevron is rotated and its children shown exactly when its id is in the expanded list |
| DocsSidebar.Sidebar.ToggleExpand | src/components/docs/DocsSidebar.tsx:71-75 | clicking a parent toggles it in the expanded list, keeps the list duplicate-free and leaves the menu flag alone |
| DocsSidebar.Sidebar.HandleNavigate | src/components/docs/DocsSidebar.tsx:77-80 | navigating forwards the id and closes the mobile menu |
| DocsSidebar.Sidebar.OpenMobileMenu | src/components/docs/DocsSidebar.tsx:89-90 | the menu button opens the mobile menu |
| DocsSidebar.Sidebar.CloseMobileMenu | src/components/docs/DocsSidebar.tsx:115 | the overlay and the close button close the mobile menu |
| CodeSandbox.MockOutput | src/components/docs/CodeSandbox.tsx:100-105 | four lines, the last one stamped with the time of the click |
| CodeSandbox.Sandbox.Valid | src/components/docs/CodeSandbox.tsx:20-25 | the invariant: a live typewriter means an animated, visible sandbox with its counter within the snippet; `isRunning` iff a run interval is live; the terminal shows a contiguous stretch of the latest run's lines, during the run and after it, and a live interval's counter is the end of that stretch |
| CodeSandbox.Sandbox.ValidOutputIsPrefix | src/components/docs/CodeSandbox.tsx:94-123 | the terminal never holds more than four lines, holds nothing before the first run, and with no reset since the latest run started holds a prefix of that run's lines, both while the run is live and after its interval is cleared |
| CodeSandbox.Sandbox.constructor | src/components/docs/CodeSandbox.tsx:19-25 | the editor starts empty when animating and full otherwise; the terminal is empty and nothing runs or types |
| CodeSandbox.Sandbox.BecomeVisible | src/components/docs/CodeSandbox.tsx:34-56 | the first time the sandbox becomes visible it starts typing from 0 when animating; this happens once |
| CodeSandbox.Sandbox.TypingTick | src/components/docs/CodeSandbox.tsx:58-70 | a tick shows one more character of the snippet, or clears the interval and the typing flag at the end; typing that runs to the end leaves the full snippet |
| CodeSandbox.Sandbox.RunCode | src/components/docs/CodeSandbox.tsx:94-117 | does nothing while typing; otherwise marks the sandbox running, clears the terminal and starts the four-line playback |
| CodeSandbox.Sandbox.PressRun | src/components/docs/CodeSandbox.tsx:167-168 | the Run button does nothing while running or typing, and otherwise starts a run |
| CodeSandbox.Sandbox.RunTick | src/components/docs/CodeSandbox.tsx:108-116 | a tick appends the next line to the terminal, or after the fourth clears the interval and the running flag |
| CodeSandbox.Sandbox.ResetCode | src/components/docs/CodeSandbox.tsx:119-123 | reset restores the full snippet, clears the terminal and the typing flag, and cancels no interval |
| CodeSandbox.Sandbox.Edit | src/components/docs/CodeSandbox.tsx:205-207 | an edit replaces the code only when not typing and not read-only |
| CodeSandbox.Sandbox.Copy | src/components/docs/CodeSandbox.tsx:88-92 | copy always yields the full snippet, whatever the editor shows |
| ProjectStructure.AfterClick | src/components/docs/sections/ProjectStructureSection.tsx:69 | `isFolder && setIsOpen(!isOpen)`: the flag changes exactly when the node is a folder |
| ProjectStructure.ShowsChildren | src/components/docs/sections/ProjectStructureSection.tsx:96 | `isFolder && isOpen && node.children`: the children are mounted only for an open folder that has a children list |
| ProjectStructure.DescriptionLabel | src/components/docs/sections/ProjectStructureSection.tsx:89-93 | the label after the name appears exactly when the description is a non-empty string, and is that description |
| ProjectStructure.RowFor | src/components/docs/sections/ProjectStructureSection.tsx:62-94 | a line is indented `depth * 16 + 8` pixels and carries the description label iff the description is a non-empty string |
| ProjectStructure.FileTreeNode.constructor | src/components/docs/sections/ProjectStructureSection.tsx:56-57 | a node mounted at depth d starts open iff d < 2 |
| ProjectStructure.FileTreeNode.Click | src/components/docs/sections/ProjectStructureSection.tsx:59-69 | a click flips a folder's flag and leaves a file's unchanged |
| ProjectStructure.FileTreeNode.Line | src/components/docs/sections/ProjectStructureSection.tsx:62-94 | the component's own line shows its name, depth and current flag, indented `depth * 16 + 8`, marked as a folder exactly for folders |
| ProjectStructure.FileTreeNode.ChildMounts | src/components/docs/sections/ProjectStructureSection.tsx:96-100 | children are mounted, one level deeper and in order, only for an open folder that has children |
| ProjectStructure.Mount | src/components/docs/sections/ProjectStructureSection.tsx:56-100 | mounting a node: the flag from its depth and, when it starts as an open folder with children, its children mounted one level deeper |
| ProjectStructure.MountFrom | src/components/docs/sections/ProjectStructureSection.tsx:97-99 | `node.children.map(...)`: one component per node of the list from position k, each for that node and at the given depth |
| ProjectStructure.ClickRoot | src/components/docs/sections/ProjectStructureSection.tsx:69-100 | a click keeps the node and depth, sets the flag `AfterClick` gives, and a folder that closes loses its mounted children |
| ProjectStructure.ClickAt | src/components/docs/sections/ProjectStructureSection.tsx:69 | a click anywhere below keeps the root's node and depth |
| ProjectStructure.Rows | src/components/docs/sections/ProjectStructureSection.tsx:61-100 | the rendered lines start with the node's own line; a file, a closed folder or a folder without children renders that line only |
| ProjectStructure.Section | src/components/docs/sections/ProjectStructureSection.tsx:116 | the section mounts the project tree's root at depth 0, open |
| ProjectStructure.MountWellMounted | src/components/docs/sections/ProjectStructureSection.tsx:56-100 | a freshly mounted node has its depth's initial flag and a subtree that follows the file tree and the rendering condition |
| ProjectStructure.ClickRootSpec | src/components/docs/sections/ProjectStructureSection.tsx:69-100 | clicking a node flips a folder and keeps its subtree well mounted |
| ProjectStructure.ClickAtWellMounted | src/components/docs/sections/ProjectStructureSection.tsx:69-100 | a click anywhere in the tree keeps every node's name, depth and mounting consistent |
| ProjectStructure.ClickAtTarget | src/components/docs/sections/ProjectStructureSection.tsx:69 | a click changes exactly the clicked node: the node on the path becomes its clicked value, each node above it keeps its flag and all its other children, and a path that leads to no mounted node changes nothing |
| ProjectStructure.ClickFileChangesNothing | src/components/docs/sections/ProjectStructureSection.tsx:69 | clicking a file leaves the whole tree unchanged |
| ProjectStructure.ReopenRemounts | src/components/docs/sections/ProjectStructureSection.tsx:96-100 | closing a folder unmounts its children, and reopening mounts each child fresh with its initial flag |
| ProjectStructure.InitialRowsAppend | src/components/docs/sections/ProjectStructureSection.tsx:96-100 | the first-render lines of concatenated entries are the concatenation of their lines |
| ProjectStructure.EntriesDepth | src/components/docs/sections/ProjectStructureSection.tsx:96-100 | every node below a node has at least its depth |
| ProjectStructure.InitialRender | src/components/docs/sections/ProjectStructureSection.tsx:56-100 | the first render of a node at depth at most 2 shows exactly the nodes of depth at most 2 below it, in display order, each with its initial flag |
| ProjectStructure.ProjectTreeSize | src/components/docs/sections/ProjectStructureSection.tsx:13-54 | the project tree has 27 nodes |
| ProjectStructure.FirstRenderLines | src/components/docs/sections/ProjectStructureSection.tsx:116 | the section first renders 25 lines, all nodes but the two inside `ai_agent` |
| ProjectStructure.ProjectTreeUniqueKeys | src/components/docs/sections/ProjectStructureSection.tsx:97-98 | sibling names are distinct at every level of the project tree, so `key={child.name}` is unique |
| Text.ContainsTransitive | src/components/docs/SearchCommand.tsx:55-57 | a substring of a substring is a substring |
| Seqs.SubsequenceDistinct | src/components/docs/DocsSidebar.tsx:73 | a subsequence of a duplicate-free list is duplicate-free |

## Left out

- Rendering, JSX, CSS classes, icon components and the chevron rotation. The model keeps only the data a line shows (name, depth, padding, folder flag, open flag, label) and the expanded and active flags.
- Syntax highlighting (Prism) and the editor's scroll synchronisation: display only.
- The clipboard write and the two-second `copied` flag. `Copy` returns the text that is written.
- The IntersectionObserver. Its callback is the `BecomeVisible` method, and the 20% threshold is not modelled.
- Timer periods (10 ms and 500 ms). Each interval callback is a tick method that the environment may call at any time, so any interleaving of ticks and clicks is covered.
- `new Date().toLocaleTimeString()`: the time is a string parameter of `RunCode` and `PressRun`.
- Unmount cleanups (clearInterval, removeEventListener, observer.disconnect).
- The `e.preventDefault()` call of the shortcut handler: a browser side effect.
- Case mapping outside ASCII. `toLowerCase` is modelled on A–Z only, and other characters are kept as they are.
- The command list's own behaviour: its fuzzy filtering on the items' `value`, and reordering the items by its own score while the search box is not empty. Only the site's own `filteredItems` and `groupedItems` are modelled, so the order proved in `GroupedListIsFilteredList` is the order the site hands to the list, not necessarily the order on screen.
- The "No results found." empty state: display only.
- The ReadingProgress, AnimatedCounter, CodeBlock, ZoomableImage and layout components, and the static content sections: they are not part of this model.
- CodeSandbox.Sandbox.RunCode: requires that no run is live. Its only caller, the Run button, is disabled while running. Without that, two intervals could append to the same terminal, and the model has one run slot.
- CodeSandbox.Sandbox.Valid: the typewriter invariant "the editor shows the first i characters" is stated only once i > 0. Before the first tick, an edit made while typing is not yet active can leave other text.
- ProjectStructure.Mounted: the tree of mounted components is a value, not linked objects. `FileTreeNode` models one component's state in place, and `ClickAt` models a click on the whole tree.
- CodeSandbox.Sandbox.RunTick: reads `mockOutput[i]` before the `i++` that follows it. The source appends with the updater `prev => [...prev, mockOutput[i]]`. If React runs that updater only in the next render, as batched updates from a timer do in React 18, it reads the incremented `i`. Then the ticks would append lines 2 to 4 and `undefined`. The React version is not fixed by these files, so the model assumes the updater runs before the increment.
- SearchCommand.GroupBySection: treats section names as plain dictionary keys. A JavaScript `Record` lists integer-like keys first. An inherited property name such as "constructor" is already truthy at the `!groups[item.section]` test, so the `push` would fail. Neither can happen here, because the palette only groups sublists of the search index, whose five section names are ordinary words.
- A second palette: the sidebar mounts the search palette twice, once in the mobile header (src/components/docs/DocsSidebar.tsx:106) and once in the desktop sidebar (src/components/docs/DocsSidebar.tsx:149). Each copy adds its own `keydown` listener, so one Cmd/Ctrl+K flips both `open` flags. The model covers a single palette.
