# Chart data transforms of Project Navigator, in Dafny

This project models the data transforms of the browser-side chart module
`chartUtils.js`. These turn the records the server sends into the shapes the
chart widgets use:

- **The simplified WBS view** (`displayWBSAsHTML` and its inner
  `renderGroup`). The work-breakdown records are bucketed by parent id in
  a dictionary. The buckets are then walked depth-first from the `'root'`
  bucket, and each record is shown at its depth, indented `level * 20`
  pixels, with a border colour for its status. The model keeps the sequence
  of visits (record, level, indent, colour, title line, progress figure,
  and whether the work and due-date parts appear), not the HTML text.
  - The grouping is a `method` with a `while` loop over a `map`.
  - `renderGroup` is a recursive `method` with a loop.
  - Both are proved against ghost specification functions (`Bucket`,
    `WalkGroup`, `Walk`), and the lemmas about those functions state:
    - the order is kept inside each bucket;
    - every record is in exactly one bucket;
    - the walk is a preorder;
    - exactly the records linked to a top-level record are shown, at the
      depth of that chain;
    - no record is shown twice.
- **The jstree node transform** (inside `generateWBS`): one node per
  record. `null` parents become `'#'`, the descriptive fields move under
  `data`, and an icon is picked by type.
- **The Gantt task normalisation** (inside `generateGantt`): defaults for
  falsy fields, the `custom_class` for group tasks, and the parent kept only
  when truthy. It also models the no-tasks message.
- **The PDF file name** (`exportPDF`): the prefix for the current chart and
  the sanitised timestamp.
- **The WBS fallback as it is called.** `generateWBS` hands the jstree nodes
  to the simplified view. This is modelled as written and as intended (see
  Findings).

JavaScript values, their truthiness, `||` and the conversion of a value to a
property key are modelled in `js_values.dfy`.

Files:
- `js_values.dfy` (module `JsValues`);
- `wbs_tree.dfy` (`WbsTree`: records and the jstree transform);
- `wbs_display.dfy` (`WbsDisplay`: the simplified view);
- `wbs_fallback.dfy` (`WbsFallback`);
- `gantt.dfy` (`GanttTasks`);
- `pdf_export.dfy` (`PdfExport`).

## Model

| member | source | states |
|---|---|---|
| JsValues.Truthy | chartUtils.js:436-439 | Falsy are exactly `undefined`, `null`, `false`, `0` and `''`. Everything else is truthy, including an empty array or object. |
| JsValues.Or | chartUtils.js:436-439 | `a \|\| b` is `a` when `a` is truthy and `b` when it is falsy. It is truthy iff either operand is. |
| JsValues.NatToDecimal | chartUtils.js:466 | The decimal form of a natural number is a non-empty string of digits. It starts with `0` only for `0`, which is `"0"`. |
| JsValues.JoinWithCommas | chartUtils.js:436-439 | An array's string form: empty for no elements, the element itself for one. |
| JsValues.JoinWithCommasLast | chartUtils.js:436-439 | For two or more elements, the join is the join of all but the last, a comma, and the last, as `Array.prototype.join` builds it left to right. |
| JsValues.ToKey | chartUtils.js:436-443 | A value used as a property key becomes its JavaScript string form. A string stays itself. `undefined`, `null`, `true` and `false` become their names, an integer its signed decimal digits, an array its elements joined with commas, and an object `[object Object]`. |
| JsValues.NatToDecimalRoundTrip | chartUtils.js:466 | The digits of `n`, read as a decimal number, are `n`. |
| JsValues.NumKeyRoundTrip | chartUtils.js:466 | The key of a number, read back as a signed decimal, is that number. |
| JsValues.NumKeyInjective | chartUtils.js:466 | Distinct numeric ids have distinct keys, so `groupedData[item.id]` finds each numeric id's own bucket. |
| WbsTree.IconFor | chartUtils.js:291-293 | Each of `project`, `phase` and `task` gets its own icon, iff the type is that string. Anything else gets `fas fa-circle`. |
| WbsTree.JstreeParent | chartUtils.js:277 | `null` becomes `'#'`. Every other value, `undefined` included, passes unchanged. The result is never `null`. |
| WbsTree.ToJstreeNode | chartUtils.js:274-294 | `id` and `text` are copied. The parent follows the `'#'` rule. The node is opened and enabled. The seven descriptive fields move under `data`. The icon follows the type. |
| WbsTree.JstreeData | chartUtils.js:274-294 | There is one node per record, same length, and node `i` is built from record `i`. |
| WbsTree.JstreeParentRoundTrip | chartUtils.js:277 | Reading `'#'` back as `null` restores every parent except a literal `'#'`. |
| WbsTree.JstreeTopLevel | chartUtils.js:274-277 | When no record already names `'#'` as its parent, a node is top-level iff its record's parent is `null`. Ids and texts are kept. |
| WbsTree.NodeAsItem | chartUtils.js:278-290 | A node read through the record's field names has its `id`, `text` and `parent`. Its status, type and WBS number are `undefined`, because they sit under `data`. |
| WbsTree.NodesAsItems | chartUtils.js:278-290 | Every node of a list is read this way, in order. |
| WbsDisplay.ChildKey | chartUtils.js:466 | The bucket below a record is its id as a property key. A string id is used as it is. |
| WbsDisplay.GroupKey | chartUtils.js:436-439 | A record with a falsy parent is filed under `'root'`. Otherwise it is filed under its parent as a property key. |
| WbsDisplay.Bucket | chartUtils.js:434-440 | A bucket holds only input records filed under its key. |
| WbsDisplay.GroupByParent | chartUtils.js:434-440 | After the loop there is a bucket exactly for the keys in use, and it holds that key's records in input order. |
| WbsDisplay.GroupStep | chartUtils.js:436-439 | Creating a missing bucket and pushing the record onto it keeps the dictionary equal to the buckets of the records seen so far. |
| WbsDisplay.BucketAppend | chartUtils.js:435-439 | The bucket of `a + b` is the bucket of `a` followed by the bucket of `b`, so input order is kept. |
| WbsDisplay.BucketPartition | chartUtils.js:436-439 | A record is in the bucket of its own key as often as it is in the input. It is in no other bucket. |
| WbsDisplay.BucketComplete | chartUtils.js:439 | Every input record is in the bucket of its key. |
| WbsDisplay.BucketsCount | chartUtils.js:434-440 | Over distinct keys, the buckets together hold each record as often as the input does when its key is among them, and otherwise not at all. |
| WbsDisplay.BucketsPermutation | chartUtils.js:434-440 | Laid end to end, the buckets of all keys in use are a permutation of the input. |
| WbsDisplay.SameKeySameItem | chartUtils.js:466 | Under distinct ids, two records with the same id key are the same record. |
| WbsDisplay.NotRootKey | chartUtils.js:466 | Under the walk's precondition, no record's id is the key `'root'`. |
| WbsDisplay.RemainingShrinks | chartUtils.js:466 | Entering a record not yet on the path lowers the count of records left to enter. |
| WbsDisplay.ValidPrefix | chartUtils.js:466 | A prefix of a chain of parents is a chain. |
| WbsDisplay.PathLink | chartUtils.js:466 | In a chain, the first record is filed under `'root'` and each later one under the id of the one before. |
| WbsDisplay.PathNoRepeat | chartUtils.js:466 | Under distinct ids, none equal to `'root'`, no record occurs twice on a chain. |
| WbsDisplay.PathExtends | chartUtils.js:466 | Descending into a record of the current bucket gives a longer chain, through a record not yet on it. This is why the recursion ends. |
| WbsDisplay.PathLast | chartUtils.js:466 | In a chain only the first record is filed under `'root'`. A later one is filed under the id of its predecessor. |
| WbsDisplay.PathUnique | chartUtils.js:466 | Two chains that end in the same record are equal, so each record has at most one chain of parents. |
| WbsDisplay.StatusColour | chartUtils.js:449-450 | Green iff the status is `'Done'`. Yellow iff it is `'In Progress'`. Red otherwise. |
| WbsDisplay.Heading | chartUtils.js:455 | The title line is the WBS number, `. ` and the text when the record has a WBS number, otherwise the text alone. It always ends with the text. |
| WbsDisplay.VisitAt | chartUtils.js:449-463 | How one record is shown at a depth. Its contract is stated by `VisitAtShows`. |
| WbsDisplay.VisitAtShows | chartUtils.js:449-463 | A record shown at depth `l` is indented `l * 20` pixels, in its status colour, under its title line. Progress is its own when truthy and 0 otherwise. The work and due parts appear iff those fields are truthy. |
| WbsDisplay.WalkGroup | chartUtils.js:442-470 | The specification of `renderGroup`: each record of a group, followed by the walk of its own bucket one level deeper. Its properties are stated by the lemmas below. |
| WbsDisplay.Walk | chartUtils.js:472 | The specification of `renderGroup('root')`. It is empty iff no record is filed under `'root'`. Otherwise it starts with the first such record at level 0. |
| WbsDisplay.WalkGroupUnfold | chartUtils.js:447-467 | Showing a group shows its first record, then the walk of that record's bucket one level deeper, then the rest of the group. |
| WbsDisplay.WalkGroupStep | chartUtils.js:447-467 | The same unfolding, from any position in the group. |
| WbsDisplay.RenderStep | chartUtils.js:447-467 | One turn of the loop appends the record's visit and the walk below it. What is left is the walk of the rest of the group. |
| WbsDisplay.RenderGroup | chartUtils.js:442-470 | `renderGroup(p, l)` returns the walk of bucket `p` at depth `l`. It is empty iff bucket `p` does not exist. |
| WbsDisplay.BucketDistinct | chartUtils.js:434-440 | Under distinct ids a bucket holds each record once. |
| WbsDisplay.ChainThroughRest | chartUtils.js:447 | A chain through a later record of a group is a chain through the group. |
| WbsDisplay.ChainThroughBelow | chartUtils.js:466 | A chain through the bucket of a group's first record is a chain through the group. |
| WbsDisplay.ChainThroughSkip | chartUtils.js:447 | A chain through a group that does not pass its first record is a chain through the rest of the group. |
| WbsDisplay.ChainThroughDescend | chartUtils.js:466 | A chain that goes on past a group's first record goes through that record's bucket. |
| WbsDisplay.WalkGroupMember | chartUtils.js:447-467 | A visit of a group is its first record's visit, a visit below that record, or a visit of the rest of the group. |
| WbsDisplay.WalkGroupHas | chartUtils.js:447-467 | The converse: each of those three kinds of visit is a visit of the group. |
| WbsDisplay.WalkGroupSoundHead | chartUtils.js:452-453 | The first record of a group is shown at the group's depth, as the end of the chain through it. |
| WbsDisplay.WalkGroupSound | chartUtils.js:447-467 | Every visit below a path is the end of a chain through that path, shown at the chain's depth with that record's colour. |
| WbsDisplay.WalkGroupSoundBelow | chartUtils.js:466 | The same, for visits below the group's first record. |
| WbsDisplay.WalkGroupSoundRest | chartUtils.js:447 | The same, for visits of the rest of the group. |
| WbsDisplay.WalkGroupComplete | chartUtils.js:447-467 | The end of every chain through the path and the group is shown, at the chain's depth. |
| WbsDisplay.WalkGroupCompleteRest | chartUtils.js:447 | The same, for chains through a later record of the group. |
| WbsDisplay.WalkGroupCompleteBelow | chartUtils.js:466 | The same, for chains below the group's first record. |
| WbsDisplay.NoRepeatConcat | chartUtils.js:452-466 | Two visit lists without repeats, sharing no record, join into a list without repeats. |
| WbsDisplay.WalkGroupNoRepeat | chartUtils.js:447-467 | The walk of a group without repeated records shows no record twice. |
| WbsDisplay.RootGroup | chartUtils.js:472 | The `'root'` bucket is a group below the empty chain. |
| WbsDisplay.WalkSound | chartUtils.js:472 | Every shown record ends a chain of parents that starts at a top-level record. It is shown at that chain's depth, with indent and colour to match. |
| WbsDisplay.WalkComplete | chartUtils.js:472 | Every record with such a chain is shown, at the chain's depth. |
| WbsDisplay.WalkTopLevel | chartUtils.js:472 | A shown record is at level 0 iff it is filed under `'root'`. |
| WbsDisplay.OrphanOffChain | chartUtils.js:436-466 | A record whose parent is neither `'root'` nor any record's id lies on no chain of parents. |
| WbsDisplay.WalkDropsOrphan | chartUtils.js:434-472 | A record whose parent is neither `'root'` nor any record's id is never shown. Neither is anything below it: the chain of parents of every shown record avoids it. |
| WbsDisplay.WalkNoRepeat | chartUtils.js:466-472 | Under distinct ids, none equal to `'root'`, no record is shown twice. |
| WbsDisplay.ParentsFirstConcat | chartUtils.js:466 | Joining two preorder lists keeps each visit after its parent. |
| WbsDisplay.ParentsFirstUnder | chartUtils.js:466 | A record's visit followed by the walk below it is a preorder. |
| WbsDisplay.ChainEnd | chartUtils.js:466 | The end of a chain through a group lies at least at the group's depth. Exactly at that depth, it is a record of the group. |
| WbsDisplay.WalkGroupLevels | chartUtils.js:466 | The visits of a group are at least as deep as the group. Those exactly that deep show the group's own records. |
| WbsDisplay.WalkGroupParentsFirst | chartUtils.js:447-467 | Every visit deeper than the group comes after the visit of its parent, one level up. |
| WbsDisplay.WalkParentsFirst | chartUtils.js:442-472 | The walk is a preorder: each record below the top level is shown after its parent, one level deeper. |
| WbsDisplay.DisplayWbsAsHtml | chartUtils.js:430-476 | Groups the records, walks from `'root'` at level 0, and shows no record twice. |
| WbsFallback.FallbackInputIds | chartUtils.js:274-276 | The nodes have distinct ids exactly when the records do. |
| WbsFallback.FallbackAsWritten | chartUtils.js:405-412 | The fallback walks the jstree nodes, read as records, and shows none twice. |
| WbsFallback.FallbackCorrected | chartUtils.js:479-488 | The fallback handed the server's records walks them and shows none twice. |
| WbsFallback.BucketEmpty | chartUtils.js:443-444 | A key no record is filed under has an empty bucket. |
| WbsFallback.AsWrittenShowsNothing | chartUtils.js:405-412 | Handed the nodes of records whose parents are `null` or ids, the fallback shows nothing. |
| WbsFallback.AsWrittenLosesFields | chartUtils.js:282-290 | Whatever the fallback does show is red, without WBS number, at progress 0, and without work or due parts. |
| WbsFallback.CorrectedShowsTopLevel | chartUtils.js:472 | Handed the records, the view shows every record with a `null` parent at level 0, unindented, in its status colour. |
| WbsFallback.FallbackCounterexample | chartUtils.js:405-412 | For one finished top-level project, the fallback shows nothing, while the intended view shows it in green. |
| GanttTasks.FreshId | chartUtils.js:134 | A generated id is a non-empty string. |
| GanttTasks.ProcessTask | chartUtils.js:133-149 | A truthy field is kept, a falsy one gets its default. `custom_class` is `'group-task'` iff the raw type is `'group'`. The parent is present iff truthy. |
| GanttTasks.ProcessData | chartUtils.js:131-152 | One normalised task per input task, in order. |
| GanttTasks.PrepareGantt | chartUtils.js:112-131 | A missing or empty task list gives the no-tasks message. Otherwise the chart gets the normalised tasks. |
| GanttTasks.ProcessedTaskSound | chartUtils.js:133-149 | After normalisation, id, name, type and dependencies are truthy, and the group style goes with type `'group'`. |
| GanttTasks.ProcessTaskIdempotent | chartUtils.js:133-149 | Normalising a normalised task again, with any random suffix, changes nothing. |
| PdfExport.ChartLabel | chartUtils.js:495-496 | `GanttChart` iff the current chart is `'gantt'`. `WBSChart` iff it is `'wbs'`. `Chart` otherwise. |
| PdfExport.Sanitize | chartUtils.js:498 | Same length. Every `:` and `.` becomes `-`, and every other character stays. |
| PdfExport.PdfFileName | chartUtils.js:498-499 | The name is the chart's prefix, `_`, the sanitised time and `.pdf`, with length the prefix's plus the time's plus five. |
| PdfExport.PdfFileNameShape | chartUtils.js:498-499 | The name is the prefix, `_`, the sanitised time and `.pdf`. No `:` or `.` occurs before the extension. |
| PdfExport.SanitizeIdempotent | chartUtils.js:498 | Sanitising twice is sanitising once. |

## Left out

- WbsDisplay.DisplayWbsAsHtml: requires distinct ids, none equal to `'root'` (and so do `RenderGroup`, `Walk` and the walk lemmas). The source has no such requirement. Without it `renderGroup` can re-enter a bucket forever. Some inputs with duplicated ids do terminate in the source, but they are not covered.
- GanttTasks.PrepareGantt: `ganttData` is either absent or a list of records. The source throws on a truthy `ganttData` that is not an array (`.map`, line 131) and on a `null` entry (`task.id`, line 134), and its `catch` (lines 203-206) shows the error snackbar. Neither error path is modelled. A falsy `ganttData` other than `null` or `undefined` (`false`, `0`, `''`) is folded into `None`, which gives the same no-tasks message.
- HTML markup and CSS text (lines 431, 452-463, 473, 481-487) are not modelled. A visit records the values the markup is built from.
- The `'  '.repeat(level)` string (line 448) is not modelled, because it is computed but never used.
- The `Type:` and `Status:` texts of line 458 are not kept. They are the string forms of the record's fields.
- Date handling is not modelled: `new Date(...)` (lines 136-137), `toLocaleDateString` (line 460) and `toISOString` (line 498). Gantt `start`/`end` are the raw values the dates are built from. A visit records only whether a due date is shown. The ISO time of an export is a parameter.
- `Math.random().toString(36).substr(2, 9)` (line 134) is not modelled. The random suffix is a parameter, one per task.
- JsValues.ToKey: numbers are exact integers written in plain decimal digits. JavaScript agrees only for safe integers (magnitude below 2^53) under 10^21. It writes larger numbers in exponent form (`String(1e21)` is `"1e+21"`) and cannot tell integers beyond 2^53 apart. So two ids such as `9007199254740992` and `9007199254740993` share a bucket in JavaScript, while the model keeps them apart.
- Numbers are integers. NaN, fractions and `-0` are not modelled.
- Arrays hold strings only, and objects are known only by identity.
- `groupedData` is a plain object. Keys inherited from `Object.prototype` (such as `constructor`) would already find a value in JavaScript. The model treats every key as absent until a record is filed under it.
- DOM access, `fetch`, `localStorage`, the `currentChart` variable (taken as a parameter), `showSnackbar` and the missing-element check of `exportPDF` (line 493) are not modelled.
- The third-party widgets are not modelled: the Gantt constructor, options and callbacks, jQuery/jstree set-up and events, and `html2pdf`.
- The timers (lines 397-413) are not modelled. The `error.jstree` and timeout fallbacks call the same function with the same nodes, and both are `FallbackAsWritten`.
- The invalid-`wbsData` check of `generateWBS` (lines 258-268) and the HTTP error paths are not modelled.
- WbsTree.JstreeData: a record is always a record. A `null` entry in `wbsData` makes the jstree `map` throw at `item.id` (line 275), and the `catch` (lines 417-426) shows the "An error occurred" panel. That error path is not modelled, and neither is the same throw in `displayWBSAsHTML` (line 436).
- `backend/server.js` (routing, database, authentication, PDF parsing, calls to the language model) is not part of this model.

## Findings

| source | as written | input that shows it | evidently intended | confidence | as-written member | corrected member |
|---|---|---|---|---|---|---|
| chartUtils.js:405-412 | Both fallbacks call `fallbackToHTMLDisplay(jstreeData)`. Every top-level node there has parent `'#'`, which is truthy, so nothing is filed under `'root'`. Status, type and WBS number sit under `data`, so anything shown would be red. | `[{id: 'p1', text: 'Website', parent: null, type: 'project', status: 'Done', wbsNumber: '1'}]`. The simplified view is empty. | Pass `data.wbsData`, so top-level records show at level 0 in their own status colour. | not executed | WbsFallback.AsWrittenShowsNothing | WbsFallback.CorrectedShowsTopLevel |
