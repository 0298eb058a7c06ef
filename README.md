# Beacon dashboard client state, in Dafny

This project models the client-side state of the Beacon live
system-monitoring dashboard (`frontend/app.js`), and proves properties of
that model. The browser receives two kinds of socket message, one after
another: system stats and process snapshots. The model covers three parts
of the state those messages drive.

- **Rolling buffers.** `updateChartData` keeps each chart's sample array at
  `MAX_DATA_POINTS = 60` or fewer: it pushes the new sample and, only when
  the array is then longer than 60, shifts the oldest one out. Five system
  buffers (`chartData`) are fed by the system-stats handler. A process has a
  cpu buffer and a memory buffer (`processHistory[pid]`) only once it has
  been expanded: the history is created lazily, on expand or on the first
  sample taken while expanded, and is deleted by a successful kill.
- **Process-list reconciliation.** `updateProcessList` runs these steps in
  order:
  1. sort the snapshot in place by `currentSort`;
  2. read which pids are expanded in the rendered list;
  3. append one cpu and one memory sample for each expanded pid that is in
     the snapshot;
  4. rebuild the list in sorted order, marking an item expanded exactly when
     its pid was expanded before.
- **Per-pid lifecycle.** `toggleProcessExpansion`, `createProcessCharts`,
  `updateProcessCharts` and the result branch of `killProcess` create and
  remove history entries and chart-registry entries.

Modules:

- `RollingBuffer` (`rolling_buffer.dfy`): `Append` is `updateChartData` on a
  sequence. `Feed` applies `Append` once per value of a run. `Window` is the
  reference definition: the last min(60, n) elements.
- `ProcessSort` (`process_sort.dfy`): the `Process` record and the three
  comparators. A stable insertion sort is written two ways: as a function
  (`Sort`), and as an in-place method on an `array` (`SortInPlace`). The
  method is proved to produce exactly the function's result.
  `SortProcesses` is `sortProcesses`.
- `Reconcile` (`reconcile.dfy`): the value-level steps of
  `updateProcessList`, with their lemmas:
  - `ExpandedPids` is the `querySelectorAll` of expanded items;
  - `Find` is `processes.find`;
  - `RecordSamples` is the history loop;
  - `Rebuild` is the list rebuild.
- `Dashboard` (`dashboard.dfy`): one class holds all the mutable state. Its
  fields are the five system buffers, `processHistory` (a map from pid to
  `History`), `processCharts` (a set of pids), the rendered list `items` and
  `currentSort`. One method per handler; the loops are `while` loops with
  invariants.

Modelling choices:

- **Rendered list.** The DOM list is a sequence of `Item(proc, expanded)`,
  one item per snapshot record. Each item has its own `expanded` flag.
  Duplicate pids in a snapshot therefore behave as in the code:
  `querySelector` finds the first item, and `includes` marks every item with
  an expanded pid.
- **Chart registry.** Reduced to the set of pids that own charts. The
  Chart.js objects, their data bindings and their `destroy`/`update` calls
  are not modelled.
- **Canvases.** `createProcessCharts` looks up two canvases. They exist
  exactly when an item with that pid is rendered, because
  `createProcessItem` puts both inside the item.
- **Sort comparators.** "`a` may stay in front of `b`" means the comparator
  gives `cmp(a, b) <= 0`. The cpu and memory comparators are the source's
  subtractions. `localeCompare` is a parameter. The name clauses assume only
  that "compares at most zero" is a total preorder (`ConsistentComparator`),
  a consequence of ECMAScript's stronger definition of a consistent
  comparator.
- **Sort algorithm.** `Array.prototype.sort` is stable. The model uses a
  stable insertion sort.
- **Sample values.** Treated as opaque integers.
- **Where the code differs from a plausible design.** The model follows the
  code in each case:
  - collapsing a pid removes only its chart entry and keeps its history;
  - a pid that leaves the snapshot keeps its history and its chart entry;
  - when that pid reappears it is rendered collapsed;
  - a later expand reuses the old history, because of
    `if (!processHistory[pid])`.

## Model

| member | source | states |
|---|---|---|
| `RollingBuffer.Append` | frontend/app.js:128-133 | on a buffer within capacity, the result is the last min(60, n) elements of the old contents followed by the new sample; it stays within 60; below capacity nothing is evicted; at capacity exactly the oldest element is evicted |
| `RollingBuffer.Feed` | frontend/app.js:128-133 | a run of `updateChartData` calls on one buffer, oldest sample first; no contract of its own, its properties are stated by `FeedKeepsWindow` and `FeedFromEmpty` |
| `RollingBuffer.FeedKeepsWindow` | frontend/app.js:128-133 | after any run of appends to a buffer within capacity, the buffer is the last min(60, n) elements of the old contents followed by the arrivals, in arrival order, and its length is at most 60 |
| `RollingBuffer.FeedFromEmpty` | frontend/app.js:45-52 | a buffer that starts empty (as every `chartData` array does) holds exactly the last min(60, n) of the n samples appended to it |
| `ProcessSort.Insert` | frontend/app.js:239-245 | one stable insertion into a sorted prefix; no contract of its own, its properties are stated by `InsertPermutes`, `InsertSorted` and `InsertTies`, and `InsertAt` is proved equal to it |
| `ProcessSort.Sort` | frontend/app.js:239-245 | the stable sort under a comparator; no contract of its own, its properties are stated by `SortPermutes`, `SortSorts`, `SortStable` and `SortSpec`, and `SortInPlace` is proved equal to it |
| `ProcessSort.SortPermutes` | frontend/app.js:239-245 | the sort returns a permutation (equal multisets) of its input |
| `ProcessSort.SortSorts` | frontend/app.js:239-245 | under a total preorder, every element of the result may stay in front of every later element |
| `ProcessSort.SortStable` | frontend/app.js:239-245 | under a total preorder, the elements tied with any given element appear in the result in their input order |
| `ProcessSort.CpuBefore` | frontend/app.js:239 | the cpu comparator as "may stay in front of"; no contract of its own, see `CpuBeforeIsTotalPreorder` and `SortProcessesSpec` |
| `ProcessSort.MemoryBefore` | frontend/app.js:242 | the memory comparator; no contract of its own, see `MemoryBeforeIsTotalPreorder` and `SortProcessesSpec` |
| `ProcessSort.NameBefore` | frontend/app.js:245 | the name comparator through `localeCompare`; no contract of its own, see `NameBeforeIsTotalPreorder` and `SortProcessesSpec` |
| `ProcessSort.SortedFor` | frontend/app.js:236-248 | the order `sortProcesses` produces for each key; no contract of its own, its properties are stated by `SortProcessesSpec`, and `SortProcesses` is proved equal to it |
| `ProcessSort.SortSpec` | frontend/app.js:239-245 | under a total preorder the sort returns a permutation of its input that is sorted and in which every group of tied elements keeps its input order |
| `ProcessSort.CpuBeforeIsTotalPreorder` | frontend/app.js:239 | the cpu comparator `b.cpu_percent - a.cpu_percent`, read as "compares at most zero", is total and transitive |
| `ProcessSort.MemoryBeforeIsTotalPreorder` | frontend/app.js:242 | the same for the memory comparator |
| `ProcessSort.NameBeforeIsTotalPreorder` | frontend/app.js:245 | when `localeCompare` is a consistent comparator on strings, comparing the two names with it is total and transitive on processes |
| `ProcessSort.SortProcessesSpec` | frontend/app.js:236-248 | `sortProcesses` returns a permutation. With `cpu` (resp. `memory`) the result is non-increasing in that percentage and stable on ties. With `name`, whenever `localeCompare` is consistent, it is non-decreasing under `localeCompare` and stable. With any other key the order is unchanged |
| `ProcessSort.ShiftRight` | frontend/app.js:239-245 | the backward scan of one insertion step moves each element of the sorted prefix that may not stay in front of the new element one place right; it stops at a gap that is the array's start or follows an element that may stay in front; the rest of the array is untouched |
| `ProcessSort.InsertAt` | frontend/app.js:239-245 | one insertion step leaves the first i+1 cells equal to the stable insertion of the i-th element into the sorted prefix, and the cells after it unchanged |
| `ProcessSort.SortInPlace` | frontend/app.js:239-245 | the in-place array sort leaves the array equal to the stable sort of its old contents |
| `ProcessSort.SortProcesses` | frontend/app.js:236-248 | the array afterwards is the sort of its old contents for the given key, and unchanged for an unknown key |
| `Reconcile.ExpandedPids` | frontend/app.js:205-206 | the pids of the expanded items, in list order; no contract of its own, its properties are stated by `ExpandedPidsMembers` and `ExpandedPidsDistinct` |
| `Reconcile.Find` | frontend/app.js:210 | `processes.find` gives nothing exactly when the pid is absent from the snapshot; otherwise it gives a record of the snapshot carrying that pid |
| `Reconcile.FindIsFirst` | frontend/app.js:210 | when the k-th record is the first one carrying the pid, `processes.find` gives exactly that record |
| `Reconcile.FirstItem` | frontend/app.js:295 | the item lookup gives nothing exactly when no item has the pid; otherwise it gives the position of the first item with that pid |
| `Reconcile.HistoryOf` | frontend/app.js:212-214 | the pid's history, or the empty one when it has none; no contract of its own, used by `RecordSample` and stated about in `RecordSamplesOnce` |
| `Reconcile.Grow` | frontend/app.js:215-216 | one sample is appended to each buffer of a history. Both buffers stay within capacity, each holding the last min(60, n) of its samples |
| `Reconcile.RecordSample` | frontend/app.js:210-217 | one round of the history loop; no contract of its own, `RecordSampleFor` is proved equal to it |
| `Reconcile.RecordSamples` | frontend/app.js:209-218 | the whole history loop, in list order; no contract of its own, its properties are stated by `RecordSamplesElsewhere`, `RecordSamplesOnce`, `RecordSamplesBounded` and `RecordSamplesKeys` |
| `Reconcile.Render` | frontend/app.js:224-231 | the item built for one record, expanded when its pid is in `expandedPids`; no contract of its own, see `RebuildRenders` |
| `Reconcile.Rebuild` | frontend/app.js:223-232 | the rebuilt list, one item per sorted record; no contract of its own, its properties are stated by `RebuildRenders` and `ReconcileKeepsExpansion` |
| `Reconcile.ExpandedPidsMembers` | frontend/app.js:205-206 | a pid is among `expandedPids` exactly when some rendered item with that pid carries `expanded` |
| `Reconcile.ExpandedPidsDistinct` | frontend/app.js:205-206 | when no pid is rendered twice, no pid occurs twice in `expandedPids` |
| `Reconcile.RebuildRenders` | frontend/app.js:223-232 | the rebuilt list has one item per record of the sorted snapshot, in order, expanded exactly when the record's pid is in `expandedPids` |
| `Reconcile.ReconcileKeepsExpansion` | frontend/app.js:198-233 | after the rebuild the rendered pid sequence equals the sorted snapshot's pid sequence; an item is expanded exactly when some item with its pid was expanded before, regardless of position |
| `Reconcile.ReappearingPidIsCollapsed` | frontend/app.js:205-232 | a pid with no rendered item before the update (it had dropped out of the previous snapshot) is rendered collapsed, gets no sample, and keeps the history it had, unchanged, for a later expand to reuse |
| `Reconcile.RecordSamplesElsewhere` | frontend/app.js:209-218 | a pid that is not expanded, or not in the snapshot, keeps its history unchanged; a pid without a history still has none |
| `Reconcile.RecordSamplesOnce` | frontend/app.js:209-218 | an expanded pid (listed once) that is in the snapshot gets exactly one new cpu sample and one new memory sample, taken from its first record; it starts from an empty history if it had none |
| `Reconcile.RecordSamplesBounded` | frontend/app.js:209-218 | recording samples keeps every per-process buffer within 60 |
| `Reconcile.RecordSamplesKeys` | frontend/app.js:209-218 | afterwards the pids with a history are the old ones plus the expanded pids present in the snapshot |
| `Dashboard.Dashboard.constructor` | frontend/app.js:42-58 | the page starts with empty buffers, no history, no chart entries and sort key `cpu` |
| `Dashboard.Dashboard.UpdateSystemStats` | frontend/app.js:169-195 | each of the five system buffers gets exactly one sample (through `Append`), the buffers stay within 60, and nothing else changes |
| `Dashboard.Dashboard.SelectSort` | frontend/app.js:403-405 | the sort key becomes the selected value and nothing else changes |
| `Dashboard.Dashboard.UpdateProcessCharts` | frontend/app.js:353-360 | changes nothing; it redraws exactly when the pid has both a chart entry and a history; when every chart has a history, it redraws exactly when the pid has a chart entry |
| `Dashboard.Dashboard.CreateProcessCharts` | frontend/app.js:316-350 | without the canvases (no rendered item with that pid) nothing changes; otherwise the pid is added to the chart registry and nothing else changes |
| `Dashboard.Dashboard.ToggleProcessExpansion` | frontend/app.js:294-313 | the first item with the pid flips its flag. On expand: existing history kept, empty history created if missing, pid added to the registry. On collapse: pid leaves the registry, history untouched. With no item, nothing changes. Buffers stay within 60 and every chart keeps a history |
| `Dashboard.Dashboard.RecordSampleFor` | frontend/app.js:209-218 | one round of the history loop: a pid in the snapshot gets its history (created empty if missing) extended by the cpu and memory sample of its first record; otherwise nothing changes |
| `Dashboard.Dashboard.RecordExpandedSamples` | frontend/app.js:208-218 | the history loop produces `RecordSamples` of the old history, keeps every buffer within 60, and adds exactly the expanded pids present in the snapshot as keys |
| `Dashboard.Dashboard.RenderList` | frontend/app.js:220-232 | the rebuild loop leaves the list equal to `Rebuild` of the sorted snapshot |
| `Dashboard.Dashboard.UpdateProcessList` | frontend/app.js:198-233 | the handler does four things: sorts the array by the current key, records samples for the pids expanded before the call, rebuilds the list with those pids expanded, and keeps chart entries, system buffers and the sort key. Buffers stay within 60 and every chart keeps a history |
| `Dashboard.Dashboard.KillProcess` | frontend/app.js:363-393 | without confirmation, on `success: false` and on an exception, history and registry are unchanged (the last two alert the user); on success exactly `processHistory[pid]` and `processCharts[pid]` are removed; the list, buffers and sort key never change |

## Left out

- DOM and Chart.js: element lookup, `innerHTML`, text formatting, chart
  configuration and the `update`/`destroy` calls (frontend/app.js:5-38,
  61-125, 156-166, 251-291). They are foreign UI calls. They appear only as
  their effect on the chart-registry set and on the rendered item list.
- `updateConnectionStatus` (frontend/app.js:136-144, 155-166): it only
  restyles two DOM elements. The code keeps no connection state to model.
- The `console.log` and `console.error` calls (frontend/app.js:137, 142, 378,
  390): they only write to the browser console and change no state.
- `escapeHtml` (frontend/app.js:396-400): the browser does the escaping, so
  there is no logic here.
- The socket.io transport, `fetch`, `confirm`, `alert` and
  `event.stopPropagation`, which are I/O:
  - user confirmation is the boolean parameter `confirmed`;
  - the server's reply is the parameter `result`;
  - the alert is the returned `Alert` value;
  - message delivery is modelled as one method call per handler, in delivery
    order.
- `killProcess` is asynchronous. Between the request and the reply other
  messages may be handled. `KillProcess` models only the synchronous part
  before the request and the branch applied when the reply arrives.
- `UpdateSystemStats`: the network samples are normalised against
  `Math.max(down, up, 1)` in floating point (frontend/app.js:185-187). The
  model receives the two normalised values as opaque integers. It does not
  model the division.
- `SortProcesses`: percentages are floating point in the source, so as
  integers the model cannot express NaN. The browser's own sort algorithm is
  not modelled; a stable insertion sort stands in for it.
- `SortProcesses`: process names are assumed to be strings. psutil reports
  an attribute it may not read as `None`, and the backend substitutes a
  default only for the cpu and memory percentages (backend/app.py:96-99), so
  a record can arrive with `name: null`. With the `name` key,
  `a.name.localeCompare` then throws inside `processes.sort`. Because the sort
  runs first, the whole `updateProcessList` tick is skipped: no sample is
  recorded and the list is not rebuilt. The model's `Process` type cannot
  express a missing name.
- The backend (`backend/app.py`): psutil sampling, the kill route and the
  background emitter threads all depend on the host, on time or on
  concurrency. The model takes process and system snapshots as inputs.
