# Similarity-network dashboard: the data rules and drag handling, in Dafny

The dashboard lets a user upload a nodes file and a links file (JSON arrays),
filters them by year, outlier flag and similarity threshold, shows five counts,
and draws the filtered graph with a d3 force simulation in which nodes can be
dragged. This project models the rules the two core components apply, and
proves what they guarantee:

- `app/app/page.tsx` (module `Dashboard`, file `dashboard.dfy`): the node and
  link filters, `toggleYear`, the year lists derived on a nodes upload (de-duplicated,
  then sorted by JavaScript's default string ordering), the statistics, and the
  upload handler as a state transition on a `DashboardState` object.
- `app/components/network-graph.tsx` (module `NetworkGraph`, file
  `network_graph.dfy`): label, tooltip, radius and fill rules, the colour
  domain, link stroke opacity and width, the coordinates links and nodes are
  drawn at, the `{ ...d }` copies handed to the simulation (`Datum` objects), and
  the three drag handlers acting on a node object and a `Simulation` object that
  holds `alphaTarget` and a `running` flag.

Shared pieces: `GraphData` (`graph_data.dfy`) holds the `Node` and `Link` records,
the JavaScript truthiness tests on their optional fields, `similarity ?? 1`, and
the distinct-years list both components compute; `Seqs` (`seqs.dfy`) holds the
order-preserving filter and de-duplication with their lemmas; `Text`
(`text.dfy`) holds `join`/`split`, `String(n)` for integers, the string order of
the default `sort`, and a stable sort by string form.

Notes on behaviour, where the code decides:

- The colour domain (`network-graph.tsx:39`) is in first-seen order and is not
  sorted; only the page's `availableYears`/`selectedYears` are sorted, and by
  string form, so `1000` comes before `999` (`SortYearsComparesStrings`).
- The tooltip lists question and label both when both are present.
- Drag start and end test `event.active` (other gestures in progress), not
  whether the simulation is idle. `restart()` only resumes the timer.
- The link filter does not look at the node filter: a kept link may point at a
  hidden node.
- `toggleYear` is not attached to any control in the page's markup; it is
  modelled as written.
- A rejected upload (read error, parse error, non-array) changes only `error`.
- The timer is stopped on clean-up and, inside d3, once the simulation has
  cooled; neither is modelled, so on the `Simulation` objects `running` stays
  true; the drag-state functions (`OnDrag`, `Replay`) take any flag and show that
  drag callbacks never clear it.

## Model

| member | source | states |
|---|---|---|
| `GraphData.SimilarityOrDefault` | app/app/page.tsx:105 | an absent similarity reads as 1; a present one, zero included, is kept as is |
| `GraphData.TruthyYears` | app/app/page.tsx:57 | the truthy years of the nodes: a year is listed iff it is non-zero and some node has it |
| `GraphData.TruthyYearsFollowNodes` | app/app/page.tsx:57 | `map(...).filter(Boolean)` gives one entry per node whose year is truthy, in node order, each that node's year |
| `GraphData.DistinctYears` | app/components/network-graph.tsx:39 | the colour domain: duplicate-free, no zero, exactly the years some node has, ordered by first occurrence |
| `Seqs.Filter` | app/app/page.tsx:99-107 | `filter` keeps each element that passes as often as it occurs and drops every other |
| `Seqs.FilterAppend` | app/app/page.tsx:99-107 | filtering distributes over concatenation, so the input order is kept |
| `Seqs.FilterIsSubsequence` | app/app/page.tsx:99-107 | a filter's result is a subsequence of its input |
| `Seqs.Distinct` | app/app/page.tsx:57 | `[...new Set(xs)]` is duplicate-free and has the same members as `xs` |
| `Seqs.DistinctFirstSeenOrder` | app/app/page.tsx:57 | `[...new Set(xs)]` orders its elements by their first position in `xs` |
| `Dashboard.YearMatch` | app/app/page.tsx:100 | a node without a truthy year, or any node when no year is selected, passes; otherwise it passes iff its year is selected |
| `Dashboard.OutlierMatch` | app/app/page.tsx:101 | with outliers shown every node passes; otherwise exactly the nodes not flagged |
| `Dashboard.NodePasses` | app/app/page.tsx:99-103 | no selection with outliers shown keeps a node; an unflagged node without a truthy year always passes; a node whose truthy year is selected passes when its outlier test does; a flagged node with outliers hidden, or a node whose year is not selected, fails |
| `Dashboard.LinkPasses` | app/app/page.tsx:104-107 | a link with a similarity passes iff it reaches the threshold; one without passes iff the threshold is at most 1 |
| `Dashboard.FilterNodes` | app/app/page.tsx:99-103 | the visible nodes are the nodes passing the year and outlier tests, with multiplicity, as a subsequence; no year selected and outliers shown keeps all; outliers hidden leaves none |
| `Dashboard.FilterLinks` | app/app/page.tsx:104-107 | the visible links are those whose similarity (absent = 1) reaches the threshold, with multiplicity, as a subsequence |
| `Dashboard.ZeroSimilarityLinks` | app/app/page.tsx:104-107 | a link with similarity 0 is not defaulted to 1: it is dropped at every positive threshold and kept at every threshold up to 0 |
| `Dashboard.Toggled` | app/app/page.tsx:95 | a selected year is removed everywhere, leaving a subsequence; an unselected one is appended; every other year keeps its count |
| `Dashboard.ToggledTwiceMembership` | app/app/page.tsx:95 | toggling the same year twice restores which years are selected |
| `Dashboard.ToggledTwiceAbsent` | app/app/page.tsx:95 | toggling an unselected year twice restores the list exactly |
| `Dashboard.ToggledTwiceMovesToEnd` | app/app/page.tsx:95 | toggling a selected year twice can change its position |
| `Dashboard.ToggledKeepsNoDuplicates` | app/app/page.tsx:95 | a duplicate-free selection stays duplicate-free |
| `Dashboard.SortYears` | app/app/page.tsx:58 | `years.sort()` is a permutation ordered by the years' string forms |
| `Dashboard.SortYearsComparesStrings` | app/app/page.tsx:58 | the default sort places 1000 before 999 |
| `Dashboard.UploadedYears` | app/app/page.tsx:57-59 | the year list of a nodes upload holds each truthy year exactly once, no zero, sorted by string form |
| `Dashboard.UploadedYearsStrictlyOrdered` | app/app/page.tsx:57-58 | no year of the uploaded list has a string form sorting at or before that of an earlier year |
| `Dashboard.ComputeStats` | app/app/page.tsx:110-116 | totals are the list lengths; filtered counts are at most the totals; the outlier count is the number of flagged positions; with outliers hidden, filtered plus outliers is at most the total |
| `Dashboard.OutlierCount` | app/app/page.tsx:115 | the outlier count is the number of positions holding a flagged node |
| `Dashboard.HiddenOutliersBound` | app/app/page.tsx:99-115 | with outliers hidden, the visible nodes and the outliers together number at most the nodes |
| `Dashboard.UploadError` | app/app/page.tsx:49-76 | an upload clears the error iff it is an array; otherwise the message is non-empty and is the read error or starts with "error parsing <type> file: " |
| `Dashboard.EventError` | app/app/page.tsx:45-76 | an array clears the error; a read failure gives "error reading <type> file"; a non-array gives "error parsing <type> file: <type> file must contain an array"; a parse failure gives the parse prefix and the error's message, or "invalid json" |
| `Dashboard.ParseErrorMessage` | app/app/page.tsx:71 | the catch message is the prefix "error parsing <type> file: " followed by the error's message, or by "invalid json" for a thrown non-error |
| `Dashboard.DashboardState.constructor` | app/app/page.tsx:33-41 | the initial state: empty lists, no files, no error, threshold 0, outliers shown |
| `Dashboard.DashboardState.HandleFileUpload` | app/app/page.tsx:43-78 | an accepted file replaces its own list and file and clears the error, a nodes file also sets both year lists to the uploaded years; a rejected one only sets the error; the filter settings never change |
| `Dashboard.DashboardState.LoadNodes` | app/app/page.tsx:49-61 | the nodes branch: nodes, file and both year lists replaced on an array, links untouched |
| `Dashboard.DashboardState.AcceptNodes` | app/app/page.tsx:53-61 | an accepted nodes array becomes the nodes, its file is stored, both year lists become the uploaded years, the error is cleared and the links are untouched |
| `Dashboard.DashboardState.LoadLinks` | app/app/page.tsx:62-69 | the links branch: links and file replaced on an array; nodes and year lists never touched |
| `Dashboard.DashboardState.ToggleYear` | app/app/page.tsx:94-96 | only the selection changes, to the toggled list, keeping it duplicate-free |
| `Dashboard.DashboardState.SetSimilarityThreshold` | app/app/page.tsx:237 | the slider sets only the threshold |
| `Dashboard.DashboardState.SetShowOutliers` | app/app/page.tsx:257 | the switch sets only the outlier toggle |
| `Dashboard.DashboardState.FilteredNodes` | app/app/page.tsx:98-103 | the shown nodes are a subsequence of the stored ones, holding each node that passes under the current selection and outlier switch as often as it is stored, and no other |
| `Dashboard.DashboardState.FilteredLinks` | app/app/page.tsx:104-107 | the shown links are a subsequence of the stored ones, holding each link that reaches the current threshold as often as it is stored, and no other |
| `Dashboard.DashboardState.CurrentStats` | app/app/page.tsx:110-116 | the counts are the stored lists' lengths, the shown lists' lengths, and the number of flagged positions |
| `Text.SplitJoin` | app/components/network-graph.tsx:112 | joining lines with a separator they do not contain and splitting on it gives the lines back |
| `Text.IntToString` | app/components/network-graph.tsx:110 | the decimal form of a safe-integer year: a minus sign exactly for a negative number, then digits without leading zero whose value is the magnitude |
| `Text.NatToString` | app/components/network-graph.tsx:110 | the digits of a non-negative number: non-empty, no leading zero (a positive number starts with a non-zero digit), and denoting the number |
| `Text.IntToStringInjective` | app/app/page.tsx:58 | two integers have the same string form iff they are equal |
| `Text.Join` | app/components/network-graph.tsx:112 | joining no pieces gives the empty string and one piece gives that piece; the length is the pieces' total plus one separator between each pair of neighbours |
| `Text.JoinSnoc` | app/components/network-graph.tsx:107-112 | pushing one more piece appends a separator and that piece to the join; with the one-piece case of `Join`, the pieces appear in push order with one separator between neighbours |
| `Text.LexLeTotal` | app/app/page.tsx:58 | the default sort's string comparison relates any two strings one way or the other |
| `Text.LexLeTransitive` | app/app/page.tsx:58 | the string comparison is transitive |
| `Text.LexLeAntisymmetric` | app/app/page.tsx:58 | strings that compare both ways are equal |
| `Text.SortBy` | app/app/page.tsx:58 | a sort without comparator returns a permutation ordered by string form |
| `NetworkGraph.DisplayLabel` | app/components/network-graph.tsx:97 | the label is the question if non-empty, else the label if non-empty, else the id; it is empty only when all three are |
| `NetworkGraph.TooltipLines` | app/components/network-graph.tsx:106-113 | one line for the id plus one per truthy field among question, label, year and outlier flag, and no others; the id first, then question, label and `Year: <year>` each right after the parts before it, and "Outlier" last exactly for outliers |
| `NetworkGraph.Tooltip` | app/components/network-graph.tsx:106-113 | the pushed parts joined with line breaks are the tooltip lines |
| `NetworkGraph.TooltipSplitsIntoLines` | app/components/network-graph.tsx:107-112 | when no field holds a line break, the tooltip text splits back into its lines |
| `NetworkGraph.Radius` | app/components/network-graph.tsx:85 | radius 8 exactly for outliers, 6 otherwise |
| `NetworkGraph.NodeFill` | app/components/network-graph.tsx:86-89 | destructive exactly for outliers, whatever their year; else the scale's colour for a truthy year, else chart-1 |
| `NetworkGraph.ColourDomainIsUnsorted` | app/components/network-graph.tsx:39 | years 2020 then 2019 give the domain 2020, 2019 |
| `NetworkGraph.StrokeOpacity` | app/components/network-graph.tsx:65-68 | opacity lies in [0.2, 0.8] for a similarity in [0, 1], and is 0.8 without similarity |
| `NetworkGraph.StrokeWidth` | app/components/network-graph.tsx:69-72 | width lies in [1, 4] for a similarity in [0, 1], is 4 without similarity, and is five times the opacity |
| `NetworkGraph.StrokeMonotone` | app/components/network-graph.tsx:65-72 | a more similar link is strictly more opaque and wider |
| `NetworkGraph.Translation` | app/components/network-graph.tsx:132 | a node is drawn at its coordinates, a missing one read as 0 |
| `NetworkGraph.LinkSegment` | app/components/network-graph.tsx:126-130 | a link's line runs between the points its two nodes are drawn at |
| `NetworkGraph.CopyAll` | app/components/network-graph.tsx:35-36 | one new, distinct object per record, same length and order, holding that record |
| `NetworkGraph.Datum.constructor` | app/components/network-graph.tsx:35 | a copy holds the record it was made from |
| `NetworkGraph.Simulation.constructor` | app/components/network-graph.tsx:45-46 | a new simulation runs, with alpha target 0, over the given node objects |
| `NetworkGraph.Simulation.SetAlphaTarget` | app/components/network-graph.tsx:136 | sets only the alpha target |
| `NetworkGraph.Simulation.Restart` | app/components/network-graph.tsx:136 | sets only the running flag; since nothing in the model stops the timer, the flag is already true on these objects |
| `NetworkGraph.OnDrag` | app/components/network-graph.tsx:135-150 | a callback changes only the node's pin and the simulation; start pins at the node's position and, when no other drag is active, sets alpha target 0.3 and restarts; a move pins at the drag event's position; end unpins and, when no other drag is active, sets alpha target 0 |
| `NetworkGraph.Replay` | app/components/network-graph.tsx:135-150 | any sequence of drag callbacks changes only the node's pin, and never stops a running timer |
| `NetworkGraph.MovesPinAtEventPosition` | app/components/network-graph.tsx:141-144 | after drag moves the node is pinned at the last drag event's position and nothing else changes |
| `NetworkGraph.GestureUnpins` | app/components/network-graph.tsx:135-150 | start, moves and end leave the node as it was except unpinned |
| `NetworkGraph.GestureAlpha` | app/components/network-graph.tsx:135-150 | a gesture alone ends with alpha target 0 and the simulation running; an overlapping one leaves alpha target and running flag as they were |
| `NetworkGraph.DragStarted` | app/components/network-graph.tsx:135-139 | alpha target 0.3 and restart only when no other drag is active; the node is pinned at its current position; no other node changes |
| `NetworkGraph.Dragged` | app/components/network-graph.tsx:141-144 | the node is pinned at the drag event's position; the simulation and other nodes are unchanged |
| `NetworkGraph.DragEnded` | app/components/network-graph.tsx:146-150 | alpha target 0 only when no other drag is active; the node is unpinned; no other node changes |

## Left out

- The force simulation itself (`network-graph.tsx:45-56`): link, charge, centre and collision forces, alpha decay, ticks and pinning during a tick are d3 library behaviour and floating-point physics; only `alphaTarget` and a `running` flag are kept.
- Link endpoint resolution (`forceLink(...).id(d => d.id)`): library code; `LinkSegment` takes the two resolved nodes.
- The ordinal colour scale and the zoom behaviour (`network-graph.tsx:40-43, 116-123`): library code; the scale is a parameter `colorScale` of `NodeFill`.
- `FileReader` and `JSON.parse` (`page.tsx:44-47, 74-77`): I/O and library parsing; the parsed value is the abstract `Parsed` (array, non-array, or a thrown value) and a read failure is a `ReadFailed` event.
- Array elements that are not records: a `null` in a nodes array would make line 57 throw after lines 53-54, leaving the new nodes and file with an error message; the model takes elements to be records.
- React hooks, state batching, the effect's clean-up (`simulation.stop()`), the SVG construction and all markup: UI plumbing; state updates are modelled as immediate assignments in source order.
- `app/components/stats-card.tsx`: presentation only.
- The open-ended extra fields of nodes and links: carried as an opaque map, never read.
- CSS colour strings: the constructors of `Palette` and `Fill`.
- Numbers: years are taken to be safe integers, with magnitude below 2^53 (non-integer and NaN years are not modelled). Beyond 2^53 a JSON year is rounded on parsing, so two distinct years in the file can collapse into one set entry. From 10^21 on, `String(n)` switches to exponent form (`1e+21`), which would change the tooltip's year line and the default sort's order. Similarities and coordinates are exact reals, so floating-point rounding in the stroke formulas is not modelled.
- Text.IntToString: gives plain decimal digits for every integer; JavaScript does so only below 10^21 in magnitude, so the model's string forms, and the year order derived from them, match the program for safe-integer years only.
- Dashboard.SortYears: `sort()` runs in place on the array that both year lists then share; the model sorts a value and gives both cells the same list, and the engine's sorting algorithm is replaced by a stable insertion sort with the same result.
- NetworkGraph.Translation: the `translate(x,y)` string is not built; the pair of numbers is.
