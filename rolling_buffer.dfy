/**
 * The fixed-capacity sample buffers behind every trend chart of the
 * dashboard: one call of `updateChartData` pushes a sample and, once the
 * buffer has grown past the capacity, shifts the oldest one out.
 */
module RollingBuffer {

  /** MAX_DATA_POINTS: sixty one-second samples per chart. */
  const MaxDataPoints: nat := 60

  /** The last min(MaxDataPoints, |s|) elements of s, in arrival order. */
  function Window<T>(s: seq<T>): (r: seq<T>)
    ensures |r| == if |s| < MaxDataPoints then |s| else MaxDataPoints
  {
    if |s| <= MaxDataPoints then s else s[|s| - MaxDataPoints..]
  }

  /**
   * updateChartData(dataArray, newValue): push, then shift once if the
   * buffer is now longer than the capacity. On a buffer that respects the
   * capacity the result is the window of the old contents followed by the
   * new sample: it stays within the capacity, keeps the new sample last and
   * evicts at most one element, the oldest.
   */
  function Append<T>(buf: seq<T>, x: T): (r: seq<T>)
    ensures |buf| <= MaxDataPoints ==> r == Window(buf + [x])
    ensures |buf| <= MaxDataPoints ==> |r| <= MaxDataPoints
    ensures |buf| < MaxDataPoints ==> r == buf + [x]
    ensures |buf| == MaxDataPoints ==> r == buf[1..] + [x]
  {
    var pushed := buf + [x];
    if |pushed| > MaxDataPoints then pushed[1..] else pushed
  }

  /** A run of updateChartData calls on one buffer, oldest sample first. */
  function Feed<T>(buf: seq<T>, xs: seq<T>): seq<T>
    decreases |xs|
  {
    if xs == [] then buf else Feed(Append(buf, xs[0]), xs[1..])
  }

  /** Taking the window first and then appending loses nothing the later window keeps. */
  lemma WindowOfWindow<T>(s: seq<T>, t: seq<T>)
    ensures Window(Window(s) + t) == Window(s + t)
  {
    var w := Window(s);
    var a, b := Window(w + t), Window(s + t);
    assert |a| == |b|;
    forall k | 0 <= k < |a|
      ensures a[k] == b[k]
    {
      var i := |w + t| - |a| + k;
      var j := |s + t| - |b| + k;
      if i < |w| {
        assert j < |s| && j == |s| - |w| + i;
        assert (w + t)[i] == w[i] == s[j] == (s + t)[j];
      } else {
        assert (w + t)[i] == t[i - |w|] == (s + t)[j];
      }
    }
  }

  /**
   * Whatever the values and however many of them arrive, a buffer that
   * starts within the capacity ends up holding exactly the last
   * min(60, n) elements of its old contents followed by the arrivals.
   */
  lemma {:induction false} FeedKeepsWindow<T>(buf: seq<T>, xs: seq<T>)
    requires |buf| <= MaxDataPoints
    ensures Feed(buf, xs) == Window(buf + xs)
    ensures |Feed(buf, xs)| <= MaxDataPoints
    decreases |xs|
  {
    if xs == [] {
      assert buf + xs == buf;
    } else {
      var x, rest := xs[0], xs[1..];
      var next := Append(buf, x);
      assert next == Window(buf + [x]);
      assert Feed(buf, xs) == Feed(next, rest);
      FeedKeepsWindow(next, rest);
      WindowOfWindow(buf + [x], rest);
      assert buf + [x] + rest == buf + xs;
    }
  }

  /** From an empty buffer: the buffer is the last min(60, n) of the n samples appended. */
  lemma {:induction false} FeedFromEmpty<T>(xs: seq<T>)
    ensures Feed([], xs) == xs[|xs| - (if |xs| < MaxDataPoints then |xs| else MaxDataPoints)..]
  {
    FeedKeepsWindow([], xs);
    assert [] + xs == xs;
  }
}
