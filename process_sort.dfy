/**
 * sortProcesses: the process snapshot is sorted in place by the current
 * sort key with the browser's Array.prototype.sort, which is stable. The
 * model is a stable insertion sort: a specification function on sequences,
 * the lemmas that it is a stable sorted permutation, and an in-place
 * method on an array proved to produce exactly that function's result.
 */
module ProcessSort {

  /** One record of a process-stats message. Percentages are opaque samples. */
  datatype Process = Process(pid: int, name: string, cpuPercent: int, memoryPercent: int, memoryMb: int)

  /** `before(a, b)`: a may stay in front of b, i.e. the comparator gives cmp(a, b) <= 0. */
  ghost predicate TotalPreorder<T(!new)>(before: (T, T) -> bool) {
    && (forall a, b :: before(a, b) || before(b, a))
    && (forall a, b, c :: before(a, b) && before(b, c) ==> before(a, c))
  }

  /** a and b tie under the comparator. */
  predicate Tied<T>(before: (T, T) -> bool, a: T, b: T) {
    before(a, b) && before(b, a)
  }

  /** Every element may stay in front of every later one. */
  ghost predicate SortedBy<T>(before: (T, T) -> bool, s: seq<T>) {
    forall i, j :: 0 <= i < j < |s| ==> before(s[i], s[j])
  }

  /** The elements of s that tie with x, in their order in s. */
  function Ties<T>(before: (T, T) -> bool, s: seq<T>, x: T): seq<T>
  {
    if s == [] then []
    else Ties(before, s[..|s| - 1], x) + (if Tied(before, s[|s| - 1], x) then [s[|s| - 1]] else [])
  }

  /** Insert x behind the sorted prefix s, passing over (from the back) every element that may not stay in front of x. */
  function Insert<T>(before: (T, T) -> bool, s: seq<T>, x: T): seq<T>
  {
    if s == [] then [x]
    else if before(s[|s| - 1], x) then s + [x]
    else Insert(before, s[..|s| - 1], x) + [s[|s| - 1]]
  }

  /** Stable insertion sort: each element in turn is inserted into the sorted prefix before it. */
  function Sort<T>(before: (T, T) -> bool, s: seq<T>): seq<T>
  {
    if s == [] then [] else Insert(before, Sort(before, s[..|s| - 1]), s[|s| - 1])
  }

  lemma {:induction false} InsertPermutes<T>(before: (T, T) -> bool, s: seq<T>, x: T)
    ensures multiset(Insert(before, s, x)) == multiset(s) + multiset{x}
    decreases |s|
  {
    if s != [] && !before(s[|s| - 1], x) {
      var init, l := s[..|s| - 1], s[|s| - 1];
      assert Insert(before, s, x) == Insert(before, init, x) + [l];
      InsertPermutes(before, init, x);
      assert multiset(s) == multiset(init) + multiset{l} by {
        assert s == init + [l];
      }
    }
  }

  /** Inserting into a sorted sequence keeps it sorted. */
  lemma {:induction false} InsertSorted<T(!new)>(before: (T, T) -> bool, s: seq<T>, x: T)
    requires TotalPreorder(before)
    requires SortedBy(before, s)
    ensures SortedBy(before, Insert(before, s, x))
    decreases |s|
  {
    if s == [] {
    } else if before(s[|s| - 1], x) {
      var r := s + [x];
      forall i, j | 0 <= i < j < |r| ensures before(r[i], r[j]) {
        if j == |s| && i < |s| - 1 {
          assert before(s[i], s[|s| - 1]);
        }
      }
    } else {
      var init, l := s[..|s| - 1], s[|s| - 1];
      assert SortedBy(before, init);
      InsertSorted(before, init, x);
      InsertPermutes(before, init, x);
      var p := Insert(before, init, x);
      var r := p + [l];
      forall i, j | 0 <= i < j < |r| ensures before(r[i], r[j]) {
        if j == |p| {
          assert r[i] in multiset(p);
          if r[i] == x {
            assert before(x, l);
          } else {
            assert r[i] in multiset(init);
            var k :| 0 <= k < |init| && init[k] == r[i];
            assert before(s[k], s[|s| - 1]);
          }
        }
      }
    }
  }

  /** Ties of a sequence extended by one element. */
  lemma TiesSnoc<T>(before: (T, T) -> bool, s: seq<T>, l: T, y: T)
    ensures Ties(before, s + [l], y) == Ties(before, s, y) + (if Tied(before, l, y) then [l] else [])
  {
    assert (s + [l])[..|s + [l]| - 1] == s;
  }

  /** Insertion places x behind every element it ties with, and moves nothing else past them. */
  lemma {:induction false} InsertTies<T(!new)>(before: (T, T) -> bool, s: seq<T>, x: T, y: T)
    requires TotalPreorder(before)
    ensures Ties(before, Insert(before, s, x), y)
         == Ties(before, s, y) + (if Tied(before, x, y) then [x] else [])
    decreases |s|
  {
    if s == [] {
      TiesSnoc(before, [], x, y);
      assert [] + [x] == [x];
    } else if before(s[|s| - 1], x) {
      TiesSnoc(before, s, x, y);
    } else {
      var init, l := s[..|s| - 1], s[|s| - 1];
      var p := Insert(before, init, x);
      var tx := if Tied(before, x, y) then [x] else [];
      var tl := if Tied(before, l, y) then [l] else [];
      calc {
        Ties(before, Insert(before, s, x), y);
        Ties(before, p + [l], y);
        { TiesSnoc(before, p, l, y); }
        Ties(before, p, y) + tl;
        { InsertTies(before, init, x, y); }
        Ties(before, init, y) + tx + tl;
        { assert !(Tied(before, x, y) && Tied(before, l, y)); }
        Ties(before, init, y) + tl + tx;
        { TiesSnoc(before, init, l, y); assert s == init + [l]; }
        Ties(before, s, y) + tx;
      }
    }
  }

  /** The sort returns a permutation of its input. */
  lemma {:induction false} SortPermutes<T>(before: (T, T) -> bool, s: seq<T>)
    ensures multiset(Sort(before, s)) == multiset(s)
    decreases |s|
  {
    if s != [] {
      var init, l := s[..|s| - 1], s[|s| - 1];
      var sorted := Sort(before, init);
      calc {
        multiset(Sort(before, s));
        multiset(Insert(before, sorted, l));
        { InsertPermutes(before, sorted, l); }
        multiset(sorted) + multiset{l};
        { SortPermutes(before, init); }
        multiset(init) + multiset{l};
        { assert s == init + [l]; }
        multiset(s);
      }
    }
  }

  /** Under a total preorder the result is sorted. */
  lemma {:induction false} SortSorts<T(!new)>(before: (T, T) -> bool, s: seq<T>)
    requires TotalPreorder(before)
    ensures SortedBy(before, Sort(before, s))
    decreases |s|
  {
    if s != [] {
      SortSorts(before, s[..|s| - 1]);
      InsertSorted(before, Sort(before, s[..|s| - 1]), s[|s| - 1]);
    }
  }

  /** Under a total preorder the sort is stable: elements that tie keep their input order. */
  lemma {:induction false} SortStable<T(!new)>(before: (T, T) -> bool, s: seq<T>, y: T)
    requires TotalPreorder(before)
    ensures Ties(before, Sort(before, s), y) == Ties(before, s, y)
    decreases |s|
  {
    if s != [] {
      SortStable(before, s[..|s| - 1], y);
      InsertTies(before, Sort(before, s[..|s| - 1]), s[|s| - 1], y);
    }
  }

  /** The comparators of sortProcesses, as "may stay in front of". */
  function CpuBefore(): (Process, Process) -> bool {
    (a: Process, b: Process) => b.cpuPercent - a.cpuPercent <= 0
  }

  function MemoryBefore(): (Process, Process) -> bool {
    (a: Process, b: Process) => b.memoryPercent - a.memoryPercent <= 0
  }

  function NameBefore(localeCompare: (string, string) -> int): (Process, Process) -> bool {
    (a: Process, b: Process) => localeCompare(a.name, b.name) <= 0
  }

  /**
   * String.prototype.localeCompare is a consistent comparator: the
   * relation "compares at most zero" is a total preorder on strings.
   */
  ghost predicate ConsistentComparator(localeCompare: (string, string) -> int) {
    && (forall s, t :: localeCompare(s, t) <= 0 || localeCompare(t, s) <= 0)
    && (forall s, t, u :: localeCompare(s, t) <= 0 && localeCompare(t, u) <= 0 ==> localeCompare(s, u) <= 0)
  }

  /** The snapshot order that sortProcesses produces for the sort key `currentSort`. */
  function SortedFor(currentSort: string, localeCompare: (string, string) -> int, s: seq<Process>): seq<Process>
  {
    if currentSort == "cpu" then Sort(CpuBefore(), s)
    else if currentSort == "memory" then Sort(MemoryBefore(), s)
    else if currentSort == "name" then Sort(NameBefore(localeCompare), s)
    else s
  }

  /** Under a total preorder: a sorted, stable permutation. */
  lemma SortSpec<T(!new)>(before: (T, T) -> bool, s: seq<T>)
    requires TotalPreorder(before)
    ensures multiset(Sort(before, s)) == multiset(s)
    ensures SortedBy(before, Sort(before, s))
    ensures forall p :: Ties(before, Sort(before, s), p) == Ties(before, s, p)
  {
    SortPermutes(before, s);
    SortSorts(before, s);
    forall p ensures Ties(before, Sort(before, s), p) == Ties(before, s, p) {
      SortStable(before, s, p);
    }
  }

  lemma CpuBeforeIsTotalPreorder()
    ensures TotalPreorder(CpuBefore())
  {
    var before := CpuBefore();
    forall a, b ensures before(a, b) || before(b, a) { }
    forall a, b, c | before(a, b) && before(b, c) ensures before(a, c) { }
  }

  lemma MemoryBeforeIsTotalPreorder()
    ensures TotalPreorder(MemoryBefore())
  {
    var before := MemoryBefore();
    forall a, b ensures before(a, b) || before(b, a) { }
    forall a, b, c | before(a, b) && before(b, c) ensures before(a, c) { }
  }

  lemma NameBeforeIsTotalPreorder(localeCompare: (string, string) -> int)
    requires ConsistentComparator(localeCompare)
    ensures TotalPreorder(NameBefore(localeCompare))
  {
    var before := NameBefore(localeCompare);
    forall a, b ensures before(a, b) || before(b, a) {
      assert localeCompare(a.name, b.name) <= 0 || localeCompare(b.name, a.name) <= 0;
    }
    forall a, b, c | before(a, b) && before(b, c) ensures before(a, c) {
      assert localeCompare(a.name, b.name) <= 0 && localeCompare(b.name, c.name) <= 0;
    }
  }

  /**
   * What sortProcesses promises: a permutation of the snapshot; by cpu or
   * memory non-increasing and stable on ties; by name, whenever the locale
   * comparator is consistent, non-decreasing under it and stable; with any
   * other key the order is left as it is.
   */
  lemma SortProcessesSpec(currentSort: string, localeCompare: (string, string) -> int, s: seq<Process>)
    ensures multiset(SortedFor(currentSort, localeCompare, s)) == multiset(s)
    ensures currentSort == "cpu" ==>
      var r := SortedFor(currentSort, localeCompare, s);
      && (forall i, j :: 0 <= i < j < |r| ==> r[i].cpuPercent >= r[j].cpuPercent)
      && (forall p :: Ties(CpuBefore(), r, p) == Ties(CpuBefore(), s, p))
    ensures currentSort == "memory" ==>
      var r := SortedFor(currentSort, localeCompare, s);
      && (forall i, j :: 0 <= i < j < |r| ==> r[i].memoryPercent >= r[j].memoryPercent)
      && (forall p :: Ties(MemoryBefore(), r, p) == Ties(MemoryBefore(), s, p))
    ensures currentSort == "name" && ConsistentComparator(localeCompare) ==>
      var r := SortedFor(currentSort, localeCompare, s);
      && (forall i, j :: 0 <= i < j < |r| ==> localeCompare(r[i].name, r[j].name) <= 0)
      && (forall p :: Ties(NameBefore(localeCompare), r, p) == Ties(NameBefore(localeCompare), s, p))
    ensures currentSort !in {"cpu", "memory", "name"} ==> SortedFor(currentSort, localeCompare, s) == s
  {
    if currentSort == "cpu" {
      CpuBeforeIsTotalPreorder();
      SortSpec(CpuBefore(), s);
      var r := Sort(CpuBefore(), s);
      assert SortedBy(CpuBefore(), r);
      forall i, j | 0 <= i < j < |r| ensures r[i].cpuPercent >= r[j].cpuPercent {
        assert CpuBefore()(r[i], r[j]);
      }
    } else if currentSort == "memory" {
      MemoryBeforeIsTotalPreorder();
      SortSpec(MemoryBefore(), s);
      var r := Sort(MemoryBefore(), s);
      assert SortedBy(MemoryBefore(), r);
      forall i, j | 0 <= i < j < |r| ensures r[i].memoryPercent >= r[j].memoryPercent {
        assert MemoryBefore()(r[i], r[j]);
      }
    } else if currentSort == "name" {
      SortPermutes(NameBefore(localeCompare), s);
      if ConsistentComparator(localeCompare) {
        NameBeforeIsTotalPreorder(localeCompare);
        SortSpec(NameBefore(localeCompare), s);
        var r := Sort(NameBefore(localeCompare), s);
        assert SortedBy(NameBefore(localeCompare), r);
        forall i, j | 0 <= i < j < |r| ensures localeCompare(r[i].name, r[j].name) <= 0 {
          assert NameBefore(localeCompare)(r[i], r[j]);
        }
      }
    }
  }

  /** Tied elements under the cpu comparator are exactly those with equal cpu. */
  lemma CpuTiesAreEqualCpu(a: Process, b: Process)
    ensures Tied(CpuBefore(), a, b) <==> a.cpuPercent == b.cpuPercent
  {
  }

  /** Tied elements under the memory comparator are exactly those with equal memory. */
  lemma MemoryTiesAreEqualMemory(a: Process, b: Process)
    ensures Tied(MemoryBefore(), a, b) <==> a.memoryPercent == b.memoryPercent
  {
  }

  /** Passing over one element that may not stay in front of x moves the insertion point one place left. */
  lemma InsertPassesOver<T>(before: (T, T) -> bool, s: seq<T>, j: nat, x: T)
    requires 0 < j <= |s|
    requires !before(s[j - 1], x)
    ensures Insert(before, s[..j], x) + s[j..] == Insert(before, s[..j - 1], x) + s[j - 1..]
  {
    assert s[..j][..j - 1] == s[..j - 1];
    assert Insert(before, s[..j], x) == Insert(before, s[..j - 1], x) + [s[j - 1]];
    assert [s[j - 1]] + s[j..] == s[j - 1..];
  }

  /** Where the backward scan stops, x goes right behind the prefix scanned so far. */
  lemma InsertAtStop<T>(before: (T, T) -> bool, sorted: seq<T>, j: nat, x: T)
    requires j <= |sorted|
    requires j == 0 || before(sorted[j - 1], x)
    ensures Insert(before, sorted[..j], x) == sorted[..j] + [x]
  {
    var p := sorted[..j];
    if j > 0 {
      assert p[|p| - 1] == sorted[j - 1];
    }
  }

  /** The array after the shifts: the prefix, then x, then the shifted rest. */
  lemma ShiftedLayout<T>(sorted: seq<T>, j: nat, x: T, r: seq<T>)
    requires j <= |sorted| && |r| == |sorted| + 1
    requires forall k :: 0 <= k < j ==> r[k] == sorted[k]
    requires r[j] == x
    requires forall k :: j < k < |r| ==> r[k] == sorted[k - 1]
    ensures r == sorted[..j] + [x] + sorted[j..]
  {
    var q := sorted[..j] + [x] + sorted[j..];
    forall k | 0 <= k < |r| ensures r[k] == q[k] {
      if k < j {
        assert q[k] == sorted[k];
      } else if k > j {
        assert q[k] == sorted[j..][k - j - 1];
      }
    }
  }

  /**
   * The backward scan of one insertion step: from position i down, each
   * element of the prefix a[..i] that may not stay in front of x moves one
   * place to the right. The scan stops at the gap j where x belongs.
   */
  method ShiftRight<T>(a: array<T>, i: nat, x: T, before: (T, T) -> bool) returns (j: nat)
    requires i < a.Length
    modifies a
    ensures j <= i
    ensures j == 0 || before(old(a[j - 1]), x)
    ensures forall k :: 0 <= k < j ==> a[k] == old(a[k])
    ensures forall k :: j < k <= i ==> a[k] == old(a[k - 1])
    ensures forall k :: i < k < a.Length ==> a[k] == old(a[k])
    ensures Insert(before, old(a[..i]), x) == Insert(before, old(a[..i])[..j], x) + old(a[..i])[j..]
  {
    ghost var sorted := a[..i];
    j := i;
    assert sorted[..j] == sorted && sorted[j..] == [];
    while j > 0 && !before(a[j - 1], x)
      invariant 0 <= j <= i
      invariant forall k :: 0 <= k < j ==> a[k] == sorted[k]
      invariant forall k :: j < k <= i ==> a[k] == sorted[k - 1]
      invariant forall k :: i < k < a.Length ==> a[k] == old(a[k])
      invariant Insert(before, sorted, x) == Insert(before, sorted[..j], x) + sorted[j..]
    {
      InsertPassesOver(before, sorted, j, x);
      a[j] := a[j - 1];
      j := j - 1;
    }
  }

  /**
   * One step of the insertion sort: the elements of the sorted prefix
   * a[..i] that may not stay in front of a[i] are shifted one place to the
   * right, and a[i] goes into the gap.
   */
  method InsertAt<T>(a: array<T>, i: nat, before: (T, T) -> bool)
    requires i < a.Length
    modifies a
    ensures a[..i + 1] == Insert(before, old(a[..i]), old(a[i]))
    ensures a[i + 1..] == old(a[i + 1..])
  {
    var x := a[i];
    ghost var sorted := a[..i];
    var j := ShiftRight(a, i, x, before);
    a[j] := x;
    InsertAtStop(before, sorted, j, x);
    ShiftedLayout(sorted, j, x, a[..i + 1]);
    assert a[i + 1..] == old(a[i + 1..]);
  }

  /**
   * The browser's in-place sort, as a stable insertion sort on the array:
   * the prefix a[..i] is the sort of the first i input elements.
   */
  method SortInPlace<T>(a: array<T>, before: (T, T) -> bool)
    modifies a
    ensures a[..] == Sort(before, old(a[..]))
  {
    ghost var input := a[..];
    var i := 0;
    while i < a.Length
      invariant 0 <= i <= a.Length
      invariant a[..i] == Sort(before, input[..i])
      invariant a[i..] == input[i..]
    {
      assert input[..i + 1][..i] == input[..i];
      InsertAt(a, i, before);
      i := i + 1;
    }
    assert a[..] == a[..a.Length] && input == input[..a.Length];
  }

  /** sortProcesses(processes) with the current sort key; the locale comparator is the browser's. */
  method SortProcesses(processes: array<Process>, currentSort: string, localeCompare: (string, string) -> int)
    modifies processes
    ensures processes[..] == SortedFor(currentSort, localeCompare, old(processes[..]))
  {
    if currentSort == "cpu" {
      SortInPlace(processes, CpuBefore());
    } else if currentSort == "memory" {
      SortInPlace(processes, MemoryBefore());
    } else if currentSort == "name" {
      SortInPlace(processes, NameBefore(localeCompare));
    }
  }
}
