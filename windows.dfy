/**
  The good-window finder of the executive report (executive-report-factory/app.py):
  scan the hourly `is_good` flags and report every maximal run of good hours
  that is at least `min_len` hours long, then the integer report figures.
  Hours are identified by their position; the timestamps, the score and the
  weather columns are not part of this model.
*/
module Windows {
  import opened Basics

  /** A reported window: first and last hour (positions) and its length in hours. */
  datatype Window = Window(start: nat, end: nat, hours: int)

  /** Hours `s..e` (inclusive) are all good. */
  ghost predicate AllGood(good: seq<bool>, s: int, e: int)
    requires 0 <= s && e < |good|
  {
    forall t :: s <= t <= e ==> good[t]
  }

  /** Hours `s..e` form a run of good hours that cannot be extended on either side. */
  ghost predicate MaximalRun(good: seq<bool>, s: int, e: int) {
    0 <= s <= e < |good| && AllGood(good, s, e)
    && (s == 0 || !good[s - 1])
    && (e == |good| - 1 || !good[e + 1])
  }

  /** What `contiguous_windows` promises about its result. */
  ghost predicate WindowsOf(good: seq<bool>, minLen: int, ws: seq<Window>) {
    (forall k :: 0 <= k < |ws| ==>
      MaximalRun(good, ws[k].start, ws[k].end)
      && ws[k].hours == ws[k].end - ws[k].start + 1 && ws[k].hours >= minLen)
    && (forall j, k :: 0 <= j < k < |ws| ==> ws[j].end + 1 < ws[k].start)
    && (forall s, e :: MaximalRun(good, s, e) && e - s + 1 >= minLen ==>
          exists k :: 0 <= k < |ws| && ws[k].start == s && ws[k].end == e)
  }

  /** Two maximal runs that share an hour are the same run. */
  lemma RunsOverlapOnlyIfEqual(good: seq<bool>, s: int, e: int, s': int, e': int, t: int)
    requires MaximalRun(good, s, e) && MaximalRun(good, s', e')
    requires s <= t <= e && s' <= t <= e'
    ensures s == s' && e == e'
  {
  }

  /**
    The state of the scan after the first `i` hours: the cursor marks the start
    of the open run, every window so far is a closed maximal run of at least
    `minLen` hours, in order, and every such run ending before hour `i - 1` (all
    of them once the scan is over) has its window.
  */
  ghost predicate Scanned(good: seq<bool>, minLen: int, ws: seq<Window>, startIdx: Option<nat>, i: nat) {
    i <= |good|
    && (startIdx.Some? ==> startIdx.value < i && AllGood(good, startIdx.value, i - 1))
    && (startIdx.Some? ==> startIdx.value == 0 || !good[startIdx.value - 1])
    && (startIdx.None? && 0 < i < |good| ==> !good[i - 1])
    && (forall k :: 0 <= k < |ws| ==>
          MaximalRun(good, ws[k].start, ws[k].end) && ws[k].end < i
          && ws[k].hours == ws[k].end - ws[k].start + 1 && ws[k].hours >= minLen)
    && (forall j, k :: 0 <= j < k < |ws| ==> ws[j].end + 1 < ws[k].start)
    && (startIdx.Some? ==> forall k :: 0 <= k < |ws| ==> ws[k].end + 1 < startIdx.value)
    && (forall s, e :: MaximalRun(good, s, e) && e - s + 1 >= minLen && (e + 2 <= i || i == |good|) ==>
          exists k :: 0 <= k < |ws| && ws[k].start == s && ws[k].end == e)
  }

  /**
    `contiguous_windows(df, min_len)`: one left-to-right pass with a cursor on
    the start of the current run. A run is closed at the first bad hour after
    it, or at the last hour, and kept when it spans at least `min_len` hours.
    The windows are exactly the maximal good runs of at least `min_len` hours,
    in order, pairwise separated by at least one bad hour.
  */
  method ContiguousWindows(good: seq<bool>, minLen: int) returns (ws: seq<Window>)
    ensures good == [] ==> ws == []
    ensures WindowsOf(good, minLen, ws)
  {
    if good == [] {
      return [];
    }
    ws := [];
    var startIdx: Option<nat> := None;
    for i := 0 to |good|
      invariant Scanned(good, minLen, ws, startIdx, i)
    {
      ghost var ws0, start0 := ws, startIdx;
      if good[i] && startIdx.None? {
        startIdx := Some(i);
      }
      ghost var cursor := startIdx;
      if (!good[i] || i == |good| - 1) && startIdx.Some? {
        var endIdx := if good[i] && i == |good| - 1 then i else i - 1;
        var hours := endIdx - startIdx.value + 1;
        if hours >= minLen {
          ws := ws + [Window(startIdx.value, endIdx, hours)];
        }
        startIdx := None;
      }
      StepKeepsScanned(good, minLen, ws0, start0, cursor, ws, startIdx, i);
    }
  }

  /** One iteration of the scan, opening and then possibly closing a run, keeps `Scanned`. */
  lemma StepKeepsScanned(good: seq<bool>, minLen: int, ws0: seq<Window>, start0: Option<nat>,
                         cursor: Option<nat>, ws: seq<Window>, startIdx: Option<nat>, i: nat)
    requires i < |good| && Scanned(good, minLen, ws0, start0, i)
    requires cursor == if good[i] && start0.None? then Some(i) else start0
    requires (!good[i] || i == |good| - 1) && cursor.Some? ==>
      var endIdx := if good[i] && i == |good| - 1 then i else i - 1;
      var hours := endIdx - cursor.value + 1;
      startIdx.None? && ws == (if hours >= minLen then ws0 + [Window(cursor.value, endIdx, hours)] else ws0)
    requires !((!good[i] || i == |good| - 1) && cursor.Some?) ==> startIdx == cursor && ws == ws0
    ensures Scanned(good, minLen, ws, startIdx, i + 1)
  {
    if (!good[i] || i == |good| - 1) && cursor.Some? {
      StepCloses(good, minLen, ws0, start0, cursor, ws, i);
    } else {
      StepContinues(good, minLen, ws0, start0, cursor, i);
    }
  }

  /** A step that opens a run at hour `i` leaves every earlier window at least one bad hour before it. */
  lemma OpenAfterWindows(good: seq<bool>, minLen: int, ws0: seq<Window>, start0: Option<nat>, i: nat)
    requires i < |good| && Scanned(good, minLen, ws0, start0, i)
    requires good[i] && start0.None?
    ensures forall k :: 0 <= k < |ws0| ==> ws0[k].end + 1 < i
  {
    forall k | 0 <= k < |ws0| ensures ws0[k].end + 1 < i {
      assert good[ws0[k].end];
    }
  }

  /** A step that closes the open run keeps `Scanned`, with or without a new window. */
  lemma StepCloses(good: seq<bool>, minLen: int, ws0: seq<Window>, start0: Option<nat>,
                   cursor: Option<nat>, ws: seq<Window>, i: nat)
    requires i < |good| && Scanned(good, minLen, ws0, start0, i)
    requires cursor == if good[i] && start0.None? then Some(i) else start0
    requires (!good[i] || i == |good| - 1) && cursor.Some?
    requires
      var endIdx := if good[i] && i == |good| - 1 then i else i - 1;
      var hours := endIdx - cursor.value + 1;
      ws == (if hours >= minLen then ws0 + [Window(cursor.value, endIdx, hours)] else ws0)
    ensures Scanned(good, minLen, ws, None, i + 1)
  {
    if cursor != start0 {
      OpenAfterWindows(good, minLen, ws0, start0, i);
    }
    var st := cursor.value;
    var endIdx := if good[i] && i == |good| - 1 then i else i - 1;
    assert MaximalRun(good, st, endIdx);
    ClosedWindowsSound(good, minLen, ws0, ws, st, endIdx, i);
    ClosedRunsCovered(good, minLen, ws0, ws, st, endIdx, i);
  }

  /** Appending the closed run (when long enough) keeps the windows sound and in order. */
  lemma ClosedWindowsSound(good: seq<bool>, minLen: int, ws0: seq<Window>, ws: seq<Window>, st: nat, endIdx: int, i: nat)
    requires forall k :: 0 <= k < |ws0| ==>
      MaximalRun(good, ws0[k].start, ws0[k].end) && ws0[k].end < i
      && ws0[k].hours == ws0[k].end - ws0[k].start + 1 && ws0[k].hours >= minLen
    requires forall j, k :: 0 <= j < k < |ws0| ==> ws0[j].end + 1 < ws0[k].start
    requires forall k :: 0 <= k < |ws0| ==> ws0[k].end + 1 < st
    requires MaximalRun(good, st, endIdx) && endIdx <= i
    requires ws == (if endIdx - st + 1 >= minLen then ws0 + [Window(st, endIdx, endIdx - st + 1)] else ws0)
    ensures forall k :: 0 <= k < |ws| ==>
      MaximalRun(good, ws[k].start, ws[k].end) && ws[k].end < i + 1
      && ws[k].hours == ws[k].end - ws[k].start + 1 && ws[k].hours >= minLen
    ensures forall j, k :: 0 <= j < k < |ws| ==> ws[j].end + 1 < ws[k].start
  {
  }

  /** A step that leaves the run open (or no run open) keeps `Scanned` with the windows unchanged. */
  lemma StepContinues(good: seq<bool>, minLen: int, ws0: seq<Window>, start0: Option<nat>, cursor: Option<nat>, i: nat)
    requires i < |good| && Scanned(good, minLen, ws0, start0, i)
    requires cursor == if good[i] && start0.None? then Some(i) else start0
    requires !((!good[i] || i == |good| - 1) && cursor.Some?)
    ensures Scanned(good, minLen, ws0, cursor, i + 1)
  {
    if cursor != start0 {
      OpenAfterWindows(good, minLen, ws0, start0, i);
    }
    NoRunClosesHere(good, minLen, ws0, cursor, i);
  }

  /** After closing run `st..endIdx` at hour `i`, every run that ends early enough has its window. */
  lemma ClosedRunsCovered(good: seq<bool>, minLen: int, before: seq<Window>, ws: seq<Window>, st: nat, endIdx: int, i: nat)
    requires i < |good| && MaximalRun(good, st, endIdx)
    requires endIdx == i || (endIdx == i - 1 && !good[i])
    requires endIdx == i ==> i == |good| - 1 && good[i]
    requires ws == before || (endIdx - st + 1 >= minLen && ws == before + [Window(st, endIdx, endIdx - st + 1)])
    requires endIdx - st + 1 >= minLen ==> ws != before
    requires forall s, e :: MaximalRun(good, s, e) && e - s + 1 >= minLen && (e + 2 <= i || i == |good|) ==>
      exists k :: 0 <= k < |before| && before[k].start == s && before[k].end == e
    ensures forall s, e :: MaximalRun(good, s, e) && e - s + 1 >= minLen && (e + 2 <= i + 1 || i + 1 == |good|) ==>
      exists k :: 0 <= k < |ws| && ws[k].start == s && ws[k].end == e
  {
    forall s, e | MaximalRun(good, s, e) && e - s + 1 >= minLen && (e + 2 <= i + 1 || i + 1 == |good|)
      ensures exists k :: 0 <= k < |ws| && ws[k].start == s && ws[k].end == e
    {
      if e + 2 <= i {
        var k :| 0 <= k < |before| && before[k].start == s && before[k].end == e;
        assert ws[k] == before[k];
      } else {
        assert good[e] && good[endIdx];
        assert e == i - 1 ==> !good[i];
        assert e == endIdx;
        RunsOverlapOnlyIfEqual(good, s, e, st, endIdx, e);
        assert ws[|before|] == Window(st, endIdx, endIdx - st + 1);
      }
    }
  }

  /** A step that closes no run leaves no run ending at `i - 1` uncovered. */
  lemma NoRunClosesHere(good: seq<bool>, minLen: int, ws: seq<Window>, startIdx: Option<nat>, i: nat)
    requires i < |good|
    requires !((!good[i] || i == |good| - 1) && startIdx.Some?)
    requires startIdx.Some? ==> startIdx.value <= i && AllGood(good, startIdx.value, i)
    requires good[i] ==> startIdx.Some?
    requires forall s, e :: MaximalRun(good, s, e) && e - s + 1 >= minLen && (e + 2 <= i || i == |good|) ==>
      exists k :: 0 <= k < |ws| && ws[k].start == s && ws[k].end == e
    requires startIdx.None? && 0 < i ==> !good[i - 1]
    ensures forall s, e :: MaximalRun(good, s, e) && e - s + 1 >= minLen && (e + 2 <= i + 1 || i + 1 == |good|) ==>
      exists k :: 0 <= k < |ws| && ws[k].start == s && ws[k].end == e
  {
    forall s, e | MaximalRun(good, s, e) && e - s + 1 >= minLen && (e + 2 <= i + 1 || i + 1 == |good|)
      ensures exists k :: 0 <= k < |ws| && ws[k].start == s && ws[k].end == e
    {
      assert good[e];
      assert e + 2 <= i;
    }
  }

  // ---------------------------------------------------------------------------
  // kpis

  /** The integer report figures: hours scanned, good hours, longest window. */
  datatype Kpis = Kpis(rows: nat, goodHours: nat, bestWindowHours: int)

  /** Number of good hours among the first `n` hours. */
  function GoodIn(good: seq<bool>, n: nat): (c: nat)
    requires n <= |good|
    ensures c <= n
  {
    if n == 0 then 0 else GoodIn(good, n - 1) + (if good[n - 1] then 1 else 0)
  }

  /** Length of the longest window, 0 when there is none. */
  function LongestWindow(ws: seq<Window>): (h: int)
    ensures ws == [] ==> h == 0
    ensures forall k :: 0 <= k < |ws| ==> ws[k].hours <= h
    ensures ws != [] ==> exists k :: 0 <= k < |ws| && ws[k].hours == h
  {
    if ws == [] then 0
    else
      var rest := LongestWindow(ws[1..]);
      if |ws| == 1 || ws[0].hours >= rest then ws[0].hours else rest
  }

  /** `kpis(df, windows)` restricted to its integer figures. */
  function ComputeKpis(good: seq<bool>, ws: seq<Window>): (k: Kpis)
    ensures good == [] ==> k == Kpis(0, 0, 0)
  {
    if good == [] then Kpis(0, 0, 0)
    else Kpis(|good|, GoodIn(good, |good|), LongestWindow(ws))
  }

  /** A run of good hours ending before `n` contributes its whole length to the count. */
  lemma {:induction false} RunWithinCount(good: seq<bool>, s: int, e: int, n: nat)
    requires 0 <= s <= e < n <= |good| && AllGood(good, s, e)
    ensures e - s + 1 <= GoodIn(good, n)
  {
    if n - 1 > e {
      RunWithinCount(good, s, e, n - 1);
    } else if s < e {
      RunWithinCount(good, s, e - 1, n - 1);
    }
  }

  /**
    On the windows of the same hours, the longest window never exceeds the good
    hours, which never exceed the hours scanned; the good hours count exactly
    the hours flagged good.
  */
  lemma KpisBounds(good: seq<bool>, minLen: int, ws: seq<Window>)
    requires WindowsOf(good, minLen, ws)
    ensures ComputeKpis(good, ws).bestWindowHours <= ComputeKpis(good, ws).goodHours <= ComputeKpis(good, ws).rows
    ensures ComputeKpis(good, ws).goodHours == |set t | 0 <= t < |good| && good[t]|
    ensures ws == [] ==> ComputeKpis(good, ws).bestWindowHours == 0
  {
    assert ws != [] ==> MaximalRun(good, ws[0].start, ws[0].end);
    if good != [] && ws != [] {
      var k :| 0 <= k < |ws| && ws[k].hours == LongestWindow(ws);
      RunWithinCount(good, ws[k].start, ws[k].end, |good|);
    }
    GoodInIsFlagCount(good, |good|);
  }

  /** `GoodIn` counts the set of good positions. */
  lemma {:induction false} GoodInIsFlagCount(good: seq<bool>, n: nat)
    requires n <= |good|
    ensures GoodIn(good, n) == |set t | 0 <= t < n && good[t]|
  {
    if n > 0 {
      GoodInIsFlagCount(good, n - 1);
      var before := set t | 0 <= t < n - 1 && good[t];
      var all := set t | 0 <= t < n && good[t];
      if good[n - 1] {
        assert all == before + {n - 1};
      } else {
        assert all == before;
      }
    }
  }
}
