/**
 * The values updateProcessList works on: the rendered process list (one
 * item per snapshot entry, each with its own `expanded` class), the
 * per-pid sample history, and the three steps of a process-stats tick —
 * read the expanded pids off the list, record one sample for each of them,
 * rebuild the list in sorted order with those pids expanded again.
 */
module Reconcile {
  import opened RollingBuffer
  import opened ProcessSort

  datatype Option<T> = None | Some(value: T)

  /** processHistory[pid]: the cpu and the memory sample buffers of one process. */
  datatype History = History(cpu: seq<int>, memory: seq<int>)

  /** One `.process-item` element of the rendered list: the record it shows and whether it carries `expanded`. */
  datatype Item = Item(proc: Process, expanded: bool)

  /** Both buffers of a history respect the capacity. */
  predicate Bounded(h: History) {
    |h.cpu| <= MaxDataPoints && |h.memory| <= MaxDataPoints
  }

  predicate AllBounded(history: map<int, History>) {
    forall pid | pid in history :: Bounded(history[pid])
  }

  /** No value occurs twice. */
  predicate Distinct<T(==)>(s: seq<T>) {
    forall i, j :: 0 <= i < j < |s| ==> s[i] != s[j]
  }

  /** The pids of a snapshot, in its order. */
  function SnapshotPids(s: seq<Process>): (r: seq<int>)
    ensures |r| == |s|
    ensures forall k :: 0 <= k < |s| ==> r[k] == s[k].pid
  {
    if s == [] then [] else SnapshotPids(s[..|s| - 1]) + [s[|s| - 1].pid]
  }

  /** The pids of the rendered items, in list order. */
  function RenderedPids(items: seq<Item>): (r: seq<int>)
    ensures |r| == |items|
    ensures forall k :: 0 <= k < |items| ==> r[k] == items[k].proc.pid
  {
    if items == [] then [] else RenderedPids(items[..|items| - 1]) + [items[|items| - 1].proc.pid]
  }

  /**
   * expandedPids: the pids of the items that carry `expanded`, in list
   * order (document.querySelectorAll(".process-item.expanded")).
   */
  function ExpandedPids(items: seq<Item>): seq<int>
  {
    if items == [] then []
    else ExpandedPids(items[..|items| - 1])
         + (if items[|items| - 1].expanded then [items[|items| - 1].proc.pid] else [])
  }

  /** processes.find(p => p.pid === pid): the first record with that pid, if any. */
  function Find(s: seq<Process>, pid: int): (r: Option<Process>)
    ensures r.None? <==> pid !in SnapshotPids(s)
    ensures r.Some? ==> r.value.pid == pid && r.value in s
  {
    if s == [] then None
    else if s[0].pid == pid then Some(s[0])
    else
      assert SnapshotPids(s) == [s[0].pid] + SnapshotPids(s[1..]);
      Find(s[1..], pid)
  }

  /** The record found is the first one carrying the pid. */
  lemma {:induction false} FindIsFirst(s: seq<Process>, pid: int, k: nat)
    requires k < |s| && s[k].pid == pid
    requires forall j :: 0 <= j < k ==> s[j].pid != pid
    ensures Find(s, pid) == Some(s[k])
    decreases k
  {
    if k > 0 {
      FindIsFirst(s[1..], pid, k - 1);
    }
  }

  /** document.querySelector(`.process-item[data-pid="${pid}"]`): the position of the first item with that pid. */
  function FirstItem(items: seq<Item>, pid: int): (r: Option<nat>)
    ensures r.None? <==> pid !in RenderedPids(items)
    ensures r.Some? ==> r.value < |items| && items[r.value].proc.pid == pid
    ensures r.Some? ==> forall j :: 0 <= j < r.value ==> items[j].proc.pid != pid
  {
    if items == [] then None
    else if items[0].proc.pid == pid then Some(0)
    else
      assert RenderedPids(items) == [items[0].proc.pid] + RenderedPids(items[1..]);
      match FirstItem(items[1..], pid)
      case None => None
      case Some(k) => Some(k + 1)
  }

  /** The history of pid, or the empty one `{ cpu: [], memory: [] }` when there is none yet. */
  function HistoryOf(history: map<int, History>, pid: int): History {
    if pid in history then history[pid] else History([], [])
  }

  /** One updateChartData call on each buffer of the history, with the process's current sample. */
  function Grow(h: History, proc: Process): (r: History)
    ensures Bounded(h) ==> Bounded(r)
    ensures Bounded(h) ==> r.cpu == Window(h.cpu + [proc.cpuPercent]) && r.memory == Window(h.memory + [proc.memoryPercent])
  {
    History(Append(h.cpu, proc.cpuPercent), Append(h.memory, proc.memoryPercent))
  }

  /** One round of the forEach over expandedPids: the sample is recorded only when the pid is in the snapshot. */
  function RecordSample(history: map<int, History>, snapshot: seq<Process>, pid: int): map<int, History>
  {
    match Find(snapshot, pid)
    case None => history
    case Some(proc) => history[pid := Grow(HistoryOf(history, pid), proc)]
  }

  /** The whole forEach over expandedPids, in order. */
  function RecordSamples(history: map<int, History>, snapshot: seq<Process>, pids: seq<int>): map<int, History>
  {
    if pids == [] then history
    else RecordSample(RecordSamples(history, snapshot, pids[..|pids| - 1]), snapshot, pids[|pids| - 1])
  }

  /** Recording over one more pid of the list is one more round of the loop. */
  lemma RecordSamplesStep(history: map<int, History>, snapshot: seq<Process>, pids: seq<int>, i: nat)
    requires i < |pids|
    ensures RecordSamples(history, snapshot, pids[..i + 1])
         == RecordSample(RecordSamples(history, snapshot, pids[..i]), snapshot, pids[i])
  {
    assert pids[..i + 1][..i] == pids[..i];
  }

  /** The item createProcessItem builds for a record, with the `expanded` class restored when its pid was expanded. */
  function Render(proc: Process, expandedPids: seq<int>): Item {
    Item(proc, proc.pid in expandedPids)
  }

  /** The list rebuilt from the sorted snapshot, one item per record, in order. */
  function Rebuild(snapshot: seq<Process>, expandedPids: seq<int>): seq<Item>
  {
    if snapshot == [] then []
    else Rebuild(snapshot[..|snapshot| - 1], expandedPids) + [Render(snapshot[|snapshot| - 1], expandedPids)]
  }

  /** A pid is among expandedPids exactly when some item with that pid carries `expanded`. */
  lemma {:induction false} ExpandedPidsMembers(items: seq<Item>, pid: int)
    ensures pid in ExpandedPids(items)
        <==> exists k :: 0 <= k < |items| && items[k].proc.pid == pid && items[k].expanded
    decreases |items|
  {
    if items != [] {
      var init := items[..|items| - 1];
      ExpandedPidsMembers(init, pid);
      if pid in ExpandedPids(init) {
        var k :| 0 <= k < |init| && init[k].proc.pid == pid && init[k].expanded;
        assert items[k] == init[k];
      }
      if exists k :: 0 <= k < |items| && items[k].proc.pid == pid && items[k].expanded {
        var k :| 0 <= k < |items| && items[k].proc.pid == pid && items[k].expanded;
        if k < |init| {
          assert init[k] == items[k];
        }
      }
    }
  }

  /** When no pid is rendered twice, no pid is listed twice among the expanded ones. */
  lemma {:induction false} ExpandedPidsDistinct(items: seq<Item>)
    requires Distinct(RenderedPids(items))
    ensures Distinct(ExpandedPids(items))
    decreases |items|
  {
    if items != [] {
      var init, last := items[..|items| - 1], items[|items| - 1];
      assert RenderedPids(init) == RenderedPids(items)[..|init|];
      ExpandedPidsDistinct(init);
      if last.expanded {
        forall k | 0 <= k < |init| ensures init[k].proc.pid != last.proc.pid {
          assert RenderedPids(items)[k] != RenderedPids(items)[|init|];
        }
        ExpandedPidsMembers(init, last.proc.pid);
      }
    }
  }

  /** The rebuilt list shows the snapshot's records in order, each expanded exactly when its pid is listed. */
  lemma {:induction false} RebuildRenders(snapshot: seq<Process>, expandedPids: seq<int>)
    ensures |Rebuild(snapshot, expandedPids)| == |snapshot|
    ensures forall k :: 0 <= k < |snapshot| ==>
      Rebuild(snapshot, expandedPids)[k] == Item(snapshot[k], snapshot[k].pid in expandedPids)
    decreases |snapshot|
  {
    if snapshot != [] {
      RebuildRenders(snapshot[..|snapshot| - 1], expandedPids);
    }
  }

  /**
   * The rebuild step of updateProcessList: the rendered pids are the sorted
   * snapshot's pids in order, and an item is expanded afterwards exactly
   * when some item with its pid was expanded before, whatever its position
   * was or is now.
   */
  lemma ReconcileKeepsExpansion(items: seq<Item>, sorted: seq<Process>)
    ensures RenderedPids(Rebuild(sorted, ExpandedPids(items))) == SnapshotPids(sorted)
    ensures forall k :: 0 <= k < |sorted| ==>
      var item := Rebuild(sorted, ExpandedPids(items))[k];
      && item.proc == sorted[k]
      && (item.expanded <==> exists j :: 0 <= j < |items| && items[j].proc.pid == sorted[k].pid && items[j].expanded)
  {
    var e := ExpandedPids(items);
    RebuildRenders(sorted, e);
    forall k | 0 <= k < |sorted|
      ensures sorted[k].pid in e
          <==> exists j :: 0 <= j < |items| && items[j].proc.pid == sorted[k].pid && items[j].expanded
    {
      ExpandedPidsMembers(items, sorted[k].pid);
    }
  }

  /**
   * A pid that had no rendered item (it dropped out of the previous
   * snapshot) comes back collapsed, and the round records no sample for it:
   * the history it kept while absent is still there, unchanged, for a
   * later expand to reuse.
   */
  lemma ReappearingPidIsCollapsed(items: seq<Item>, sorted: seq<Process>, history: map<int, History>, pid: int)
    requires pid !in RenderedPids(items)
    ensures forall item :: item in Rebuild(sorted, ExpandedPids(items)) && item.proc.pid == pid ==> !item.expanded
    ensures pid in RecordSamples(history, sorted, ExpandedPids(items)) <==> pid in history
    ensures pid in history ==> RecordSamples(history, sorted, ExpandedPids(items))[pid] == history[pid]
  {
    forall k | 0 <= k < |items| ensures items[k].proc.pid != pid {
      assert RenderedPids(items)[k] in RenderedPids(items);
    }
    ExpandedPidsMembers(items, pid);
    RebuildRenders(sorted, ExpandedPids(items));
    RecordSamplesElsewhere(history, sorted, ExpandedPids(items), pid);
  }

  /** A pid that is not listed, or not in the snapshot, keeps its history (or its lack of one). */
  lemma {:induction false} RecordSamplesElsewhere(history: map<int, History>, snapshot: seq<Process>, pids: seq<int>, pid: int)
    requires pid !in pids || pid !in SnapshotPids(snapshot)
    ensures pid in RecordSamples(history, snapshot, pids) <==> pid in history
    ensures pid in history ==> RecordSamples(history, snapshot, pids)[pid] == history[pid]
    decreases |pids|
  {
    if pids != [] {
      var init := pids[..|pids| - 1];
      assert pid !in pids ==> pid !in init;
      RecordSamplesElsewhere(history, snapshot, init, pid);
    }
  }

  /**
   * A pid listed once and present in the snapshot gets exactly one new cpu
   * and one new memory sample, taken from its first record in the
   * snapshot; its history is created empty first if it had none.
   */
  lemma {:induction false} RecordSamplesOnce(history: map<int, History>, snapshot: seq<Process>, pids: seq<int>, pid: int)
    requires Distinct(pids)
    requires pid in pids
    requires pid in SnapshotPids(snapshot)
    ensures pid in RecordSamples(history, snapshot, pids)
    ensures RecordSamples(history, snapshot, pids)[pid] == Grow(HistoryOf(history, pid), Find(snapshot, pid).value)
    decreases |pids|
  {
    var init, last := pids[..|pids| - 1], pids[|pids| - 1];
    if last == pid {
      assert pid !in init by {
        forall k | 0 <= k < |init| ensures init[k] != pid {
          assert pids[k] != pids[|pids| - 1];
        }
      }
      RecordSamplesElsewhere(history, snapshot, init, pid);
    } else {
      assert Distinct(init) by {
        forall i, j | 0 <= i < j < |init| ensures init[i] != init[j] {
          assert pids[i] != pids[j];
        }
      }
      RecordSamplesOnce(history, snapshot, init, pid);
    }
  }

  /** Recording samples keeps every buffer within the capacity. */
  lemma {:induction false} RecordSamplesBounded(history: map<int, History>, snapshot: seq<Process>, pids: seq<int>)
    requires AllBounded(history)
    ensures AllBounded(RecordSamples(history, snapshot, pids))
    decreases |pids|
  {
    if pids != [] {
      var init, pid := pids[..|pids| - 1], pids[|pids| - 1];
      RecordSamplesBounded(history, snapshot, init);
      var h := RecordSamples(history, snapshot, init);
      assert Bounded(HistoryOf(h, pid));
    }
  }

  /** The pids with a history afterwards: the old ones plus the listed pids that occur in the snapshot. */
  lemma {:induction false} RecordSamplesKeys(history: map<int, History>, snapshot: seq<Process>, pids: seq<int>)
    ensures RecordSamples(history, snapshot, pids).Keys
         == history.Keys + (set pid | pid in pids && pid in SnapshotPids(snapshot))
    decreases |pids|
  {
    if pids != [] {
      var init := pids[..|pids| - 1];
      RecordSamplesKeys(history, snapshot, init);
      assert pids == init + [pids[|pids| - 1]];
    }
  }
}
