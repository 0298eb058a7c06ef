/**
 * The client-side state of the dashboard and the handlers that change it.
 * Every handler runs to completion before the next event is delivered, so
 * each one is a method on one object: the five system chart buffers
 * (chartData), the per-pid sample history (processHistory), the pids that
 * own a pair of process charts (processCharts), the rendered process list
 * and the selected sort key (currentSort).
 */
module Dashboard {
  import opened RollingBuffer
  import opened ProcessSort
  import opened Reconcile

  /**
   * A system-stats message, reduced to the five samples it feeds to the
   * charts: cpu.total, ram.percent, the two normalised network rates and
   * disk.percent.
   */
  datatype SystemStats = SystemStats(cpuTotal: int, ramPercent: int, networkDown: int, networkUp: int, diskPercent: int)

  /** How the POST /api/kill/{pid} call came back: `success: true`, `success: false` with a message, or an exception. */
  datatype KillResult = Killed | Refused(message: string) | Threw

  /** What the user is shown afterwards. */
  datatype Alert = NoAlert | KillFailed(message: string) | KillError

  class Dashboard {
    var cpu: seq<int>
    var ram: seq<int>
    var networkDown: seq<int>
    var networkUp: seq<int>
    var disk: seq<int>
    var processHistory: map<int, History>
    var processCharts: set<int>
    var items: seq<Item>
    var currentSort: string

    /** Every buffer, system-wide or per process, respects MAX_DATA_POINTS. */
    ghost predicate Valid()
      reads this
    {
      && |cpu| <= MaxDataPoints && |ram| <= MaxDataPoints && |disk| <= MaxDataPoints
      && |networkDown| <= MaxDataPoints && |networkUp| <= MaxDataPoints
      && AllBounded(processHistory)
    }

    /** Every pid that owns process charts also has a history for them to draw. */
    ghost predicate ChartsHaveHistory()
      reads this
    {
      processCharts <= processHistory.Keys
    }

    /** The state when the page has loaded: empty buffers, no history, no charts, sorted by cpu. */
    constructor ()
      ensures Valid() && ChartsHaveHistory()
      ensures cpu == [] && ram == [] && networkDown == [] && networkUp == [] && disk == []
      ensures processHistory == map[] && processCharts == {} && items == [] && currentSort == "cpu"
    {
      cpu, ram, networkDown, networkUp, disk := [], [], [], [], [];
      processHistory := map[];
      processCharts := {};
      items := [];
      currentSort := "cpu";
    }

    /** The system_stats handler: exactly one sample is appended to each of the five system buffers. */
    method UpdateSystemStats(data: SystemStats)
      requires Valid()
      modifies this
      ensures Valid()
      ensures cpu == Append(old(cpu), data.cpuTotal)
      ensures ram == Append(old(ram), data.ramPercent)
      ensures networkDown == Append(old(networkDown), data.networkDown)
      ensures networkUp == Append(old(networkUp), data.networkUp)
      ensures disk == Append(old(disk), data.diskPercent)
      ensures processHistory == old(processHistory) && processCharts == old(processCharts)
      ensures items == old(items) && currentSort == old(currentSort)
    {
      cpu := Append(cpu, data.cpuTotal);
      ram := Append(ram, data.ramPercent);
      networkDown := Append(networkDown, data.networkDown);
      networkUp := Append(networkUp, data.networkUp);
      disk := Append(disk, data.diskPercent);
    }

    /** The change handler of the sort selector: the next snapshot is sorted by `value`. */
    method SelectSort(value: string)
      modifies this
      ensures currentSort == value
      ensures cpu == old(cpu) && ram == old(ram) && networkDown == old(networkDown)
      ensures networkUp == old(networkUp) && disk == old(disk)
      ensures processHistory == old(processHistory) && processCharts == old(processCharts) && items == old(items)
    {
      currentSort := value;
    }

    /**
     * updateProcessCharts(pid): the charts are pointed at the history and
     * redrawn when both exist; nothing else happens. The chart calls are
     * not modelled, so `redrawn` only reports which branch was taken; the
     * contract that matters is the empty frame (no modelled state changes)
     * and that, whenever every chart has a history, a redraw happens
     * exactly when the pid owns charts.
     */
    method UpdateProcessCharts(pid: int) returns (redrawn: bool)
      ensures redrawn <==> pid in processCharts && pid in processHistory
      ensures ChartsHaveHistory() ==> (redrawn <==> pid in processCharts)
    {
      redrawn := pid in processCharts && pid in processHistory;
    }

    /**
     * createProcessCharts(pid): the two canvases exist exactly when an item
     * with that pid is rendered, since createProcessItem puts them inside
     * the item. Without them nothing happens; with them the pid is
     * (re)registered as owning charts.
     */
    method CreateProcessCharts(pid: int)
      modifies this`processCharts
      ensures processCharts == if pid in RenderedPids(items) then old(processCharts) + {pid} else old(processCharts)
      ensures cpu == old(cpu) && ram == old(ram) && networkDown == old(networkDown)
      ensures networkUp == old(networkUp) && disk == old(disk)
      ensures processHistory == old(processHistory) && items == old(items) && currentSort == old(currentSort)
    {
      var canvasesPresent := pid in RenderedPids(items);
      if !canvasesPresent {
        return;
      }
      processCharts := processCharts + {pid};
    }

    /**
     * toggleProcessExpansion(pid): the first rendered item with that pid
     * flips its `expanded` class. On expand the history is kept, or created
     * empty when there is none, and the charts are created; on collapse the
     * charts go and the history stays. With no such item the lookup yields
     * null, the handler throws, and nothing changes.
     */
    method ToggleProcessExpansion(pid: int)
      requires Valid()
      modifies this`items, this`processHistory, this`processCharts
      ensures Valid()
      ensures old(ChartsHaveHistory()) ==> ChartsHaveHistory()
      ensures FirstItem(old(items), pid).None? ==>
        items == old(items) && processHistory == old(processHistory) && processCharts == old(processCharts)
      ensures FirstItem(old(items), pid).Some? ==>
        var k := FirstItem(old(items), pid).value;
        var wasExpanded := old(items)[k].expanded;
        && items == old(items)[k := Item(old(items)[k].proc, !wasExpanded)]
        && (!wasExpanded ==>
              && processHistory == (if pid in old(processHistory) then old(processHistory)
                                    else old(processHistory)[pid := History([], [])])
              && processCharts == old(processCharts) + {pid})
        && (wasExpanded ==>
              && processHistory == old(processHistory)
              && processCharts == old(processCharts) - {pid})
      ensures cpu == old(cpu) && ram == old(ram) && networkDown == old(networkDown)
      ensures networkUp == old(networkUp) && disk == old(disk) && currentSort == old(currentSort)
    {
      var found := FirstItem(items, pid);
      if found.None? {
        return;
      }
      var k := found.value;
      items := items[k := Item(items[k].proc, !items[k].expanded)];
      assert RenderedPids(items)[k] == pid;
      if items[k].expanded {
        if pid !in processHistory {
          processHistory := processHistory[pid := History([], [])];
        }
        CreateProcessCharts(pid);
      } else {
        if pid in processCharts {
          processCharts := processCharts - {pid};
        }
      }
    }

    /**
     * One round of the first forEach of updateProcessList: when the pid is
     * in the snapshot, its history is created empty if it has none, and
     * one sample of its first record goes into each of its buffers.
     */
    method RecordSampleFor(snapshot: seq<Process>, pid: int)
      modifies this`processHistory
      ensures processHistory == RecordSample(old(processHistory), snapshot, pid)
    {
      var proc := Find(snapshot, pid);
      if proc.Some? {
        if pid !in processHistory {
          processHistory := processHistory[pid := History([], [])];
        }
        var h := processHistory[pid];
        assert h == HistoryOf(old(processHistory), pid);
        processHistory := processHistory[pid := History(Append(h.cpu, proc.value.cpuPercent),
                                                        Append(h.memory, proc.value.memoryPercent))];
      }
    }

    /**
     * The first forEach of updateProcessList: each expanded pid in turn,
     * in list order. The pids with a history afterwards are the old ones
     * plus the expanded pids found in the snapshot.
     */
    method RecordExpandedSamples(snapshot: seq<Process>, expandedPids: seq<int>)
      requires AllBounded(processHistory)
      modifies this`processHistory
      ensures processHistory == RecordSamples(old(processHistory), snapshot, expandedPids)
      ensures AllBounded(processHistory)
      ensures processHistory.Keys == old(processHistory).Keys + (set pid | pid in expandedPids && pid in SnapshotPids(snapshot))
    {
      var i := 0;
      while i < |expandedPids|
        invariant 0 <= i <= |expandedPids|
        invariant processHistory == RecordSamples(old(processHistory), snapshot, expandedPids[..i])
      {
        RecordSamplesStep(old(processHistory), snapshot, expandedPids, i);
        RecordSampleFor(snapshot, expandedPids[i]);
        i := i + 1;
      }
      assert expandedPids[..i] == expandedPids;
      RecordSamplesBounded(old(processHistory), snapshot, expandedPids);
      RecordSamplesKeys(old(processHistory), snapshot, expandedPids);
    }

    /**
     * The second forEach of updateProcessList: the list is cleared and one
     * item per record of the sorted snapshot is appended, marked expanded
     * (and its charts redrawn) when its pid was expanded.
     */
    method RenderList(snapshot: seq<Process>, expandedPids: seq<int>)
      modifies this`items
      ensures items == Rebuild(snapshot, expandedPids)
    {
      items := [];
      var k := 0;
      while k < |snapshot|
        invariant 0 <= k <= |snapshot|
        invariant items == Rebuild(snapshot[..k], expandedPids)
      {
        var proc := snapshot[k];
        var expanded := proc.pid in expandedPids;
        items := items + [Item(proc, expanded)];
        if expanded {
          var _ := UpdateProcessCharts(proc.pid);
        }
        assert snapshot[..k + 1][..k] == snapshot[..k];
        k := k + 1;
      }
      assert snapshot[..k] == snapshot;
    }

    /**
     * updateProcessList(processes), the process_stats handler: sort the
     * snapshot in place by the current key, read the expanded pids off the
     * list, record one sample for each of them that is in the snapshot, and
     * rebuild the list from the sorted snapshot with those pids expanded.
     */
    method UpdateProcessList(processes: array<Process>, localeCompare: (string, string) -> int)
      requires Valid()
      modifies this, processes
      ensures Valid()
      ensures old(ChartsHaveHistory()) ==> ChartsHaveHistory()
      ensures processes[..] == SortedFor(old(currentSort), localeCompare, old(processes[..]))
      ensures processHistory == RecordSamples(old(processHistory), processes[..], ExpandedPids(old(items)))
      ensures items == Rebuild(processes[..], ExpandedPids(old(items)))
      ensures processCharts == old(processCharts) && currentSort == old(currentSort)
      ensures cpu == old(cpu) && ram == old(ram) && networkDown == old(networkDown)
      ensures networkUp == old(networkUp) && disk == old(disk)
    {
      SortProcesses(processes, currentSort, localeCompare);
      var expandedPids := ExpandedPids(items);
      RecordExpandedSamples(processes[..], expandedPids);
      RenderList(processes[..], expandedPids);
    }

    /**
     * The part of killProcess(pid) that follows the user's answer and the
     * server's reply. Without confirmation, on `success: false` and on an
     * exception nothing changes (the last two alert the user); on success
     * exactly the pid's history and chart registration are dropped.
     */
    method KillProcess(pid: int, confirmed: bool, result: KillResult) returns (alert: Alert)
      requires Valid()
      modifies this
      ensures Valid()
      ensures old(ChartsHaveHistory()) ==> ChartsHaveHistory()
      ensures !confirmed ==> alert == NoAlert && processHistory == old(processHistory) && processCharts == old(processCharts)
      ensures confirmed && result.Killed? ==>
        alert == NoAlert && processHistory == old(processHistory) - {pid} && processCharts == old(processCharts) - {pid}
      ensures confirmed && result.Refused? ==>
        alert == KillFailed(result.message) && processHistory == old(processHistory) && processCharts == old(processCharts)
      ensures confirmed && result.Threw? ==>
        alert == KillError && processHistory == old(processHistory) && processCharts == old(processCharts)
      ensures items == old(items) && currentSort == old(currentSort)
      ensures cpu == old(cpu) && ram == old(ram) && networkDown == old(networkDown)
      ensures networkUp == old(networkUp) && disk == old(disk)
    {
      alert := NoAlert;
      if !confirmed {
        return;
      }
      match result
      case Killed =>
        processHistory := processHistory - {pid};
        if pid in processCharts {
          processCharts := processCharts - {pid};
        }
      case Refused(message) =>
        alert := KillFailed(message);
      case Threw =>
        alert := KillError;
    }
  }
}
