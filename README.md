# Organisation chart tree core, modelled in Dafny

This project models the logic of an organisation-chart front end: an
employee hierarchy arrives as one nested record, is converted into the shape
the tree renderer draws, and is then queried and listed.

- **Tree utilities** (`src/utils/OrgTree.js`): the root-to-node id path
  search (`findPath`), the subtree head count (`countEmployees`) and the
  conversion of a raw record into the renderer's node shape
  (`convertToD3Format`).
- **Directory listing** (`src/DirectoryPanel.jsx`): the pre-order walk that
  pushes every node onto one shared list, and the `employees` listing built
  from it.
- **Chart state** (`src/OrgChart.jsx`): the loaded tree, the
  `highlightedPath` a node click sets, the header's employee total, and the
  test that decides whether a link is drawn highlighted.
- **Avatar initials** (`src/CustomNode.js`): `getInitials`.

Files: `wrappers.dfy` (the optional value standing for `null`/`undefined`),
`tree.dfy` (the node datatype and the specification vocabulary: pre-order
listing, node membership, id occurrence, root-to-node chains),
`org_tree.dfy`, `directory_panel.dfy`, `org_chart.dfy`, `custom_node.dfy`
(one module per source file).

A node is `Node(id, name, fields, children)`. Ids are a type parameter
compared only for equality, and the model does not assume that they are
unique, because the code does not enforce it. `children` is `Absent` or
`Present(nodes)`. The helpers accept either shape. The code calls them
only on converted nodes, and the model is generic so that conversion can be
proved to keep their results. `fields` is a `Record` (role, photo URL) for a
raw record and a `Rendered` value (attributes.role, photo URL, hasChildren)
for a converted node.

What is proved, in the system's terms:
- `findPath` returns a path exactly when the target id occurs in the tree.
  The path starts at the root id and ends at the target id. It is a genuine
  parent-to-child chain leading to the FIRST node in pre-order, children in
  order, that carries the id.
- The head count equals the length of the pre-order listing. It is at least
  1, and conversion to the renderer's shape leaves both counts and search
  results unchanged.
- The directory walk appends exactly the pre-order listing and keeps the
  list's earlier contents as a prefix. The listing holds every node of the
  tree and nothing else. The header total equals the directory length and is
  0 only before data arrives.
- A click highlights the path `findPath` finds, or nothing for an id outside
  the tree. Every link between consecutive ids on that path is a real tree
  link and is highlighted.
- Joining a split gives the string back; splitting a join of space-free
  pieces gives the pieces back. The initials are the upper-cased first
  characters of the first two tokens, and tokens from the third on never
  matter.

## Model

| member | source | states |
|---|---|---|
| `OrgTree.FindPath` | src/utils/OrgTree.js:5-17 | a found path starts with the root id and ends with the target id; searching for the root's own id gives exactly `[root.id]` |
| `OrgTree.FindPathAmong` | src/utils/OrgTree.js:9-14 | the loop over the children yields, when it finds one, a path ending with the target id |
| `OrgTree.FindPathIsPathToFirstMatch` | src/utils/OrgTree.js:5-17 | the result is the chain to the first pre-order node carrying the target id, or absent when the listing has none |
| `OrgTree.FindPathAmongIsPathToFirstMatch` | src/utils/OrgTree.js:9-14 | the children are searched in order, and the first child subtree holding the id decides |
| `OrgTree.FindPathLeadsToFirstMatch` | src/utils/OrgTree.js:5-17 | a path is found exactly when the id occurs in the tree, and it is a chain from the root to the first pre-order node carrying the id |
| `OrgTree.FindPathIsChain` | src/utils/OrgTree.js:9-13 | a found path leads, child by child, from the root to a node of the tree carrying the target id |
| `OrgTree.CountEmployees` | src/utils/OrgTree.js:22-28 | the count is at least 1, and exactly 1 for a node whose children are missing or empty |
| `OrgTree.SumCounts` | src/utils/OrgTree.js:24-27 | the children's summed count is at least the number of children |
| `OrgTree.CountIsListingLength` | src/utils/OrgTree.js:22-28 | the count equals the number of nodes in the pre-order listing |
| `OrgTree.SumCountsIsListingLength` | src/utils/OrgTree.js:24-27 | the children's summed count equals the length of their concatenated listings |
| `OrgTree.ConvertToD3Format` | src/utils/OrgTree.js:30-37 | keeps id, name and photo URL, puts role under attributes, maps the children in order with the same length (a missing field becomes empty), and sets hasChildren exactly when the record has a non-empty children field |
| `OrgTree.ConvertAll` | src/utils/OrgTree.js:35 | the converted children are the children converted one by one, in order |
| `OrgTree.ConvertKeepsCount` | src/utils/OrgTree.js:30-37 | the head count is the same before and after conversion |
| `OrgTree.ConvertAllKeepsCount` | src/utils/OrgTree.js:35 | converting siblings keeps their summed head count |
| `OrgTree.ConvertKeepsPaths` | src/utils/OrgTree.js:30-37 | the path search gives the same result on the converted tree as on the raw record |
| `OrgTree.ConvertAllKeepsPaths` | src/utils/OrgTree.js:35 | converting siblings keeps the result of searching among them |
| `Tree.FlattenListsExactlyTheNodes` | src/DirectoryPanel.jsx:4-10 | a node appears in the pre-order listing exactly when it is a node of the tree |
| `Tree.FlattenAllListsExactlyTheNodes` | src/DirectoryPanel.jsx:7 | the siblings' concatenated listing holds exactly the nodes of their subtrees |
| `Tree.PathAtReachesListedNode` | src/utils/OrgTree.js:9-13 | the id chain to the i-th listed node is a genuine parent-to-child chain reaching that node |
| `Tree.PathAtAllReachesListedNode` | src/utils/OrgTree.js:9-13 | among siblings, the chain to the i-th listed node starts at one of them and reaches that node |
| `Tree.ChainEndsAtItsNode` | src/utils/OrgTree.js:6-12 | a chain ends with the id of the node it reaches, and that node belongs to the tree |
| `Tree.OccursIffSomeNodeCarriesIt` | src/utils/OrgTree.js:6-13 | an id occurs in the tree exactly when some node of the tree carries it |
| `DirectoryPanel.EntryList.constructor` | src/DirectoryPanel.jsx:4 | the default list starts empty |
| `DirectoryPanel.EntryList.Push` | src/DirectoryPanel.jsx:5 | a push appends the node at the end and keeps everything before it |
| `DirectoryPanel.FlattenTree` | src/DirectoryPanel.jsx:4-10 | the list afterwards is its old contents followed by the node's pre-order listing: the node first, then each child's listing in child order |
| `DirectoryPanel.FlattenAllOfSnoc` | src/DirectoryPanel.jsx:7 | walking one more child extends the listing by exactly that child's listing |
| `DirectoryPanel.Employees` | src/DirectoryPanel.jsx:12 | empty with no data, otherwise the root's pre-order listing, which starts with the root |
| `DirectoryPanel.ListingHoldsExactlyTheNodes` | src/DirectoryPanel.jsx:4-12 | the listing starts with the root and holds every node of the tree and nothing else |
| `OrgChart.ClickPath` | src/OrgChart.jsx:28-31 | non-empty exactly when the clicked id occurs in the tree, then starts at the root id, ends at the clicked id and chains to the first pre-order node carrying it; otherwise empty rather than null |
| `OrgChart.IsHighlighted` | src/OrgChart.jsx:36-38 | a link is highlighted exactly when both of its end ids are on the path; with an empty path no link is |
| `OrgChart.ChainStepsAreLinks` | src/utils/OrgTree.js:9-13 | every pair of consecutive ids on a chain is a parent-to-child link of the tree |
| `OrgChart.ClickHighlightsLinksAlongPath` | src/OrgChart.jsx:28-38 | after a click, each link between consecutive path ids is a tree link and is drawn highlighted |
| `OrgChart.NothingHighlightedOffTree` | src/OrgChart.jsx:29-38 | a click on an id outside the tree highlights nothing, and neither does the initial empty path |
| `OrgChart.Chart.constructor` | src/OrgChart.jsx:9-10 | no data and an empty highlighted path at first |
| `OrgChart.Chart.Load` | src/OrgChart.jsx:15-18 | the fetched record is stored converted, and the highlighted path is kept |
| `OrgChart.Chart.Total` | src/OrgChart.jsx:22-25 | 0 exactly when there is no data, else the root's head count, and always the length of the directory listing |
| `OrgChart.Chart.HandleNodeClick` | src/OrgChart.jsx:28-31 | sets only the highlighted path, to the found path or to the empty path; the tree is untouched |
| `CustomNode.Split` | src/CustomNode.js:64 | always at least one piece, and no piece contains the separator |
| `CustomNode.SplitAfterPlainPrefix` | src/CustomNode.js:64 | separator-free leading text becomes the beginning of the first piece |
| `CustomNode.SplitThenJoin` | src/CustomNode.js:64 | joining the pieces with the separator gives the string back |
| `CustomNode.JoinThenSplit` | src/CustomNode.js:64 | splitting a join of separator-free pieces gives the pieces back |
| `CustomNode.ToUpper` | src/CustomNode.js:65 | a lower-case ASCII letter becomes the matching upper-case letter, every other character is kept, and the result is never a lower-case ASCII letter |
| `CustomNode.Initial` | src/CustomNode.js:65 | at most one character, empty exactly for an empty token, otherwise the token's first character upper-cased |
| `CustomNode.GetInitials` | src/CustomNode.js:63-66 | at most two characters; empty for a missing or empty name |
| `CustomNode.InitialsOfTokens` | src/CustomNode.js:63-66 | for any name, the upper-cased first character of token 1 followed by that of token 2 (if any) |
| `CustomNode.InitialsOfOneWord` | src/CustomNode.js:64-65 | a one-word name gives only its own upper-cased first character |
| `CustomNode.InitialsOfFirstTwoTokens` | src/CustomNode.js:64-65 | anything after the second token is ignored, and an empty token from a leading or doubled space contributes nothing |

## Left out

- Fetching the hierarchy (`src/OrgChart.jsx:12-19`) is asynchronous network I/O. The fetched record is a parameter of `Chart.Load`, which runs the continuation.
- Rendering by the tree library is left out: layout geometry (`translate`, `nodeSize`, `separation`, `window.innerWidth`), the SVG/JSX markup, animations and CSS modules.
- `src/EmployeeDetailModal.jsx` and `src/EmployeeSidebar.jsx` only display fields, through float and locale formatting of the host platform.
- The collapse button and `isCollapsed` display in `src/CustomNode.js:43-56` are out of scope. The button calls `onToggleCollapse`, which nothing defines (`src/CustomNode.js:10-11`, `src/CustomNode.js:50`), so the model has no collapse state.
- The node highlight inside `CustomNode` is not modelled. The chart passes `selectedPath`, but the node reads an `isSelected` prop that nobody sets. Only the link highlight is modelled.
- CustomNode.GetInitials: strings are modelled as sequences of Unicode scalar values, whereas JavaScript indexes UTF-16 code units. For a token that starts with a character outside the Basic Multilingual Plane, the model takes the whole character, while JavaScript's `first[0]` gives only the high half of its surrogate pair.
- Upper-casing is ASCII only: `a`-`z` map to `A`-`Z` and every other character is unchanged. Full Unicode `toUpperCase` is not modelled. Full upper-casing can lengthen a character (`ß` becomes `SS`), so the bound of at most two characters on `CustomNode.GetInitials` holds in the model only.
- A `null` name is not modelled. The default parameter covers only a missing (`undefined`) name; `null` would throw in `split`.
- `hasChildren` is `undefined` in the source when the record has no children field. It is modelled as `false`, since only its truthiness is used.
- The chart's `data` is always a one-element array wrapping the converted root. It is modelled as an optional root. The directory panel's `data` prop (`src/DirectoryPanel.jsx:3`, `src/DirectoryPanel.jsx:12`) is assumed to receive the same `[root]`-or-`null` value; other shapes are not modelled. An empty array, for one, is truthy and makes the walk throw on `node.children`, and elements after the first are never listed.
- `Chart.HandleNodeClick` requires that data is loaded. The source would throw on `data[0]` otherwise, but clicks only come from the tree, which is drawn only once data exists.
- Counts are unbounded naturals. JavaScript numbers count exactly far beyond any realistic tree size.
- The `reduce` in `countEmployees` adds the children's counts left to right, and `SumCounts` adds them right to left. With exact integers the sums are equal.
- Ids are not required to be unique, because the code does not check them. Under duplicate ids the search follows the code and picks the first match in pre-order. The conversion does not validate records: a record without an id or name is converted as is.
- `OrgChart.ClickHighlightsLinksAlongPath` proves that links along the highlighted path are highlighted. It does not prove the converse, that no other tree link is highlighted when ids are unique. The source makes no such promise.
