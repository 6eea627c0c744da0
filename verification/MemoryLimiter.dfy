/** The in-process sliding-window limiter: sound, exact and greedy-optimal per key. */
module MemoryLimiter {

  /** The deque of admission times of each key; a key not present has an empty deque. */
  type Windows = map<string, seq<int>>

  function LogOf(w: Windows, key: string): seq<int> {
    if key in w then w[key] else []
  }

  /** Drops the leading times that have left the window. */
  function Prune(log: seq<int>, cutoff: int): seq<int> {
    if log != [] && log[0] <= cutoff then Prune(log[1..], cutoff) else log
  }

  /** One call of the limiter: the windows it leaves and whether it admits. */
  function Decide(w: Windows, key: string, now: int, window: int, requests: int): (Windows, bool) {
    var log := Prune(LogOf(w, key), now - window);
    if |log| >= requests then (w[key := log], false) else (w[key := log + [now]], true)
  }

  /** `_RATE_WINDOWS` and `_enforce_memory_rate_limit`. */
  class RateWindows {
    var windows: Windows
    const window: int
    const requests: int

    constructor (window: int, requests: int)
      ensures windows == map[] && this.window == window && this.requests == requests
    {
      windows := map[];
      this.window := window;
      this.requests := requests;
    }

    method Enforce(key: string, now: int) returns (admitted: bool)
      modifies this
      ensures (windows, admitted) == Decide(old(windows), key, now, window, requests)
    {
      if key !in windows {
        windows := windows[key := []];
      }
      while windows[key] != [] && windows[key][0] <= now - window
        invariant key in windows
        invariant windows == old(windows)[key := windows[key]]
        invariant Prune(windows[key], now - window) == Prune(LogOf(old(windows), key), now - window)
        decreases |windows[key]|
      {
        windows := windows[key := windows[key][1..]];
      }
      assert windows[key] == Prune(LogOf(old(windows), key), now - window);
      if |windows[key]| >= requests {
        return false;
      }
      windows := windows[key := windows[key] + [now]];
      assert windows == old(windows)[key := Prune(LogOf(old(windows), key), now - window) + [now]];
      return true;
    }
  }

  // ---- runs ---------------------------------------------------------------------

  datatype Call = Call(key: string, at: int)

  /** Windows and decisions after a sequence of calls, starting from no windows. */
  function Run(calls: seq<Call>, window: int, requests: int): (r: (Windows, seq<bool>))
    ensures |r.1| == |calls|
  {
    if calls == [] then (map[], [])
    else
      var (w, ds) := Run(calls[..|calls| - 1], window, requests);
      var c := calls[|calls| - 1];
      var (w', d) := Decide(w, c.key, c.at, window, requests);
      (w', ds + [d])
  }

  function Decisions(calls: seq<Call>, window: int, requests: int): (ds: seq<bool>)
    ensures |ds| == |calls|
  {
    Run(calls, window, requests).1
  }

  /** The clock never goes back. */
  ghost predicate Ordered(calls: seq<Call>) {
    forall i, j | 0 <= i < j < |calls| :: calls[i].at <= calls[j].at
  }

  /** The times at which a schedule admits calls of a key, oldest first. */
  function Admitted(calls: seq<Call>, ds: seq<bool>, key: string): seq<int>
    requires |ds| == |calls|
  {
    if calls == [] then []
    else
      var n := |calls| - 1;
      Admitted(calls[..n], ds[..n], key) + (if calls[n].key == key && ds[n] then [calls[n].at] else [])
  }

  /** The times of a log in the half-open interval `(low, high]`. */
  function Within(log: seq<int>, low: int, high: int): seq<int> {
    if log == [] then []
    else
      var n := |log| - 1;
      Within(log[..n], low, high) + (if low < log[n] <= high then [log[n]] else [])
  }

  /** How many calls of a key a schedule admits in `(t - window, t]`. */
  function Load(calls: seq<Call>, ds: seq<bool>, key: string, window: int, t: int): nat
    requires |ds| == |calls|
  {
    |Within(Admitted(calls, ds, key), t - window, t)|
  }

  /** At most `requests` admissions per key in every interval `(t - window, t]`. */
  ghost predicate Feasible(calls: seq<Call>, ds: seq<bool>, window: int, requests: int)
    requires |ds| == |calls|
  {
    forall key, t :: Load(calls, ds, key, window, t) <= requests
  }

  /** The admissions the limiter itself has made for a key. */
  function Granted(calls: seq<Call>, key: string, window: int, requests: int): seq<int> {
    Admitted(calls, Decisions(calls, window, requests), key)
  }

  // ---- one step of a run -------------------------------------------------------------

  /** A run of one more call is the run before it and one decision. */
  lemma RunStep(calls: seq<Call>, c: Call, window: int, requests: int)
    ensures var (w, ds) := Run(calls, window, requests);
            var (w', d) := Decide(w, c.key, c.at, window, requests);
            Run(calls + [c], window, requests) == (w', ds + [d])
  {
    assert (calls + [c])[..|calls|] == calls;
  }

  lemma AdmittedStep(calls: seq<Call>, ds: seq<bool>, c: Call, d: bool, key: string)
    requires |ds| == |calls|
    ensures Admitted(calls + [c], ds + [d], key)
         == if c.key == key && d then Admitted(calls, ds, key) + [c.at] else Admitted(calls, ds, key)
  {
    assert (calls + [c])[..|calls|] == calls && (ds + [d])[..|ds|] == ds;
    assert Admitted(calls, ds, key) + [] == Admitted(calls, ds, key);
  }

  /** The last call of a non-empty run. */
  lemma AdmittedLast(calls: seq<Call>, ds: seq<bool>, key: string)
    requires |ds| == |calls| > 0
    ensures var n := |calls| - 1;
            var before := Admitted(calls[..n], ds[..n], key);
            Admitted(calls, ds, key) == if calls[n].key == key && ds[n] then before + [calls[n].at] else before
  {
    var n := |calls| - 1;
    AdmittedStep(calls[..n], ds[..n], calls[n], ds[n], key);
    assert calls == calls[..n] + [calls[n]] && ds == ds[..n] + [ds[n]];
  }

  lemma {:induction false} WithinAppend(log: seq<int>, x: int, low: int, high: int)
    ensures Within(log + [x], low, high)
         == if low < x <= high then Within(log, low, high) + [x] else Within(log, low, high)
  {
    assert (log + [x])[..|log|] == log;
    assert Within(log, low, high) + [] == Within(log, low, high);
  }

  /** Every admitted time is the time of a call. */
  lemma {:induction false} AdmittedTimes(calls: seq<Call>, ds: seq<bool>, key: string)
    requires |ds| == |calls|
    ensures forall x | x in Admitted(calls, ds, key) :: exists i :: 0 <= i < |calls| && calls[i].at == x
  {
    if calls != [] {
      var n := |calls| - 1;
      AdmittedTimes(calls[..n], ds[..n], key);
      forall x | x in Admitted(calls, ds, key) ensures exists i :: 0 <= i < |calls| && calls[i].at == x {
        if x in Admitted(calls[..n], ds[..n], key) {
          var i :| 0 <= i < n && calls[..n][i].at == x;
          assert calls[i].at == x;
        } else {
          assert calls[n].at == x;
        }
      }
    }
  }

  ghost predicate Bounded(log: seq<int>, high: int) {
    forall i | 0 <= i < |log| :: log[i] <= high
  }

  ghost predicate Sorted(log: seq<int>) {
    forall i, j | 0 <= i < j < |log| :: log[i] <= log[j]
  }

  lemma AdmittedBounded(calls: seq<Call>, ds: seq<bool>, key: string, high: int)
    requires |ds| == |calls|
    requires forall i | 0 <= i < |calls| :: calls[i].at <= high
    ensures Bounded(Admitted(calls, ds, key), high)
  {
    AdmittedTimes(calls, ds, key);
    var log := Admitted(calls, ds, key);
    forall i | 0 <= i < |log| ensures log[i] <= high {
      assert log[i] in log;
    }
  }

  lemma {:induction false} AdmittedSorted(calls: seq<Call>, ds: seq<bool>, key: string)
    requires |ds| == |calls| && Ordered(calls)
    ensures Sorted(Admitted(calls, ds, key))
  {
    if calls != [] {
      var n := |calls| - 1;
      AdmittedSorted(calls[..n], ds[..n], key);
      AdmittedBounded(calls[..n], ds[..n], key, calls[n].at);
    }
  }

  // ---- pruning ---------------------------------------------------------------------------

  /** On a sorted log, pruning keeps exactly the times after the cutoff. */
  lemma {:induction false} PruneIsWithin(log: seq<int>, cutoff: int, high: int)
    requires Sorted(log) && Bounded(log, high)
    ensures Prune(log, cutoff) == Within(log, cutoff, high)
  {
    if log != [] {
      var n := |log| - 1;
      PruneIsWithin(log[..n], cutoff, high);
      assert log == log[..n] + [log[n]];
      PruneAppend(log[..n], log[n], cutoff);
      WithinAppend(log[..n], log[n], cutoff, high);
      if log[n] <= cutoff {
        NoneWithin(log[..n], cutoff, high);
      }
    }
  }

  lemma {:induction false} PruneAppend(log: seq<int>, x: int, cutoff: int)
    requires Sorted(log + [x])
    ensures Prune(log + [x], cutoff) == if x <= cutoff then [] else Prune(log, cutoff) + [x]
  {
    if log == [] {
      assert log + [x] == [x];
      assert x <= cutoff ==> Prune([x], cutoff) == Prune([x][1..], cutoff) == [];
    } else if log[0] <= cutoff {
      assert (log + [x])[1..] == log[1..] + [x];
      forall i, j | 0 <= i < j < |log[1..] + [x]| ensures (log[1..] + [x])[i] <= (log[1..] + [x])[j] {
        assert (log[1..] + [x])[i] == (log + [x])[i + 1] && (log[1..] + [x])[j] == (log + [x])[j + 1];
      }
      PruneAppend(log[1..], x, cutoff);
    } else {
      assert (log + [x])[0] == log[0] && (log + [x])[|log|] == x;
    }
  }

  lemma {:induction false} PrunePrune(log: seq<int>, first: int, second: int)
    requires first <= second
    ensures Prune(Prune(log, first), second) == Prune(log, second)
  {
    if log != [] && log[0] <= first {
      PrunePrune(log[1..], first, second);
    }
  }

  // ---- exactness ----------------------------------------------------------------------------

  /** The deque of a key is its granted log pruned at some cutoff no later than the present window's. */
  ghost predicate Tracks(calls: seq<Call>, key: string, window: int, requests: int, cutoff: int) {
    LogOf(Run(calls, window, requests).0, key) == Prune(Granted(calls, key, window, requests), cutoff)
  }

  /** What the limiter looks at, and its decision. */
  lemma DecisionIs(calls: seq<Call>, c: Call, window: int, requests: int, cutoff: int)
    requires cutoff <= c.at - window && Tracks(calls, c.key, window, requests, cutoff)
    ensures var log := Prune(Granted(calls, c.key, window, requests), c.at - window);
            && Prune(LogOf(Run(calls, window, requests).0, c.key), c.at - window) == log
            && (Decisions(calls + [c], window, requests)[|calls|] <==> |log| < requests)
            && LogOf(Run(calls + [c], window, requests).0, c.key) == if |log| < requests then log + [c.at] else log
  {
    RunStep(calls, c, window, requests);
    PrunePrune(Granted(calls, c.key, window, requests), cutoff, c.at - window);
  }

  lemma GrantedStep(calls: seq<Call>, c: Call, window: int, requests: int)
    ensures Granted(calls + [c], c.key, window, requests)
         == if Decisions(calls + [c], window, requests)[|calls|]
            then Granted(calls, c.key, window, requests) + [c.at] else Granted(calls, c.key, window, requests)
  {
    var (w, ds) := Run(calls, window, requests);
    RunStep(calls, c, window, requests);
    AdmittedStep(calls, ds, c, Decide(w, c.key, c.at, window, requests).1, c.key);
  }

  /** After a call at `now`, the deque of its key is its granted log pruned at `now - window`. */
  lemma {:induction false} DecideTracks(calls: seq<Call>, c: Call, window: int, requests: int, cutoff: int)
    requires window >= 1 && Ordered(calls + [c])
    requires cutoff <= c.at - window && Tracks(calls, c.key, window, requests, cutoff)
    ensures Tracks(calls + [c], c.key, window, requests, c.at - window)
    ensures Decisions(calls + [c], window, requests)[|calls|] <==>
            |Prune(Granted(calls, c.key, window, requests), c.at - window)| < requests
  {
    DecisionIs(calls, c, window, requests, cutoff);
    GrantedStep(calls, c, window, requests);
    if Decisions(calls + [c], window, requests)[|calls|] {
      AdmittedSorted(calls + [c], Decisions(calls + [c], window, requests), c.key);
      PruneAppend(Granted(calls, c.key, window, requests), c.at, c.at - window);
    }
  }

  lemma OtherTracks(calls: seq<Call>, c: Call, key: string, window: int, requests: int, cutoff: int)
    requires key != c.key && Tracks(calls, key, window, requests, cutoff)
    ensures Tracks(calls + [c], key, window, requests, cutoff)
    ensures LogOf(Run(calls + [c], window, requests).0, key) == LogOf(Run(calls, window, requests).0, key)
  {
    var (w, ds) := Run(calls, window, requests);
    RunStep(calls, c, window, requests);
    AdmittedStep(calls, ds, c, Decide(w, c.key, c.at, window, requests).1, key);
  }

  lemma {:induction false} RunTracks(calls: seq<Call>, key: string, window: int, requests: int, now: int)
    returns (cutoff: int)
    requires window >= 1 && Ordered(calls)
    requires forall i | 0 <= i < |calls| :: calls[i].at <= now
    ensures cutoff <= now - window && Tracks(calls, key, window, requests, cutoff)
  {
    if calls == [] {
      cutoff := now - window;
    } else {
      var before, c := calls[..|calls| - 1], calls[|calls| - 1];
      assert calls == before + [c];
      if c.key == key {
        cutoff := RunTracks(before, key, window, requests, c.at);
        DecideTracks(before, c, window, requests, cutoff);
        cutoff := c.at - window;
      } else {
        cutoff := RunTracks(before, key, window, requests, now);
        OtherTracks(before, c, key, window, requests, cutoff);
      }
    }
  }

  lemma GrantedRecent(calls: seq<Call>, c: Call, window: int, requests: int)
    requires window >= 1 && Ordered(calls + [c])
    ensures var log := Granted(calls, c.key, window, requests);
            Prune(log, c.at - window) == Within(log, c.at - window, c.at)
  {
    assert forall i | 0 <= i < |calls| :: calls[i] == (calls + [c])[i] && calls[i].at <= (calls + [c])[|calls|].at;
    AdmittedSorted(calls, Decisions(calls, window, requests), c.key);
    AdmittedBounded(calls, Decisions(calls, window, requests), c.key, c.at);
    PruneIsWithin(Granted(calls, c.key, window, requests), c.at - window, c.at);
  }

  /**
   * Exactness: after each call the deque of the key is the sorted log of its admissions in
   * `(now - window, now]`, other keys are untouched, and the call is rejected exactly when that log
   * already had `requests` entries.
   */
  lemma Exact(calls: seq<Call>, c: Call, window: int, requests: int)
    requires window >= 1 && requests >= 1 && Ordered(calls + [c])
    ensures var w' := Run(calls + [c], window, requests).0;
            var before := Within(Granted(calls, c.key, window, requests), c.at - window, c.at);
            && LogOf(w', c.key) == Within(Granted(calls + [c], c.key, window, requests), c.at - window, c.at)
            && Sorted(LogOf(w', c.key))
            && (forall key | key != c.key :: LogOf(w', key) == LogOf(Run(calls, window, requests).0, key))
            && (Decisions(calls + [c], window, requests)[|calls|] <==> |before| != requests)
  {
    assert forall i | 0 <= i < |calls| :: calls[i] == (calls + [c])[i] && calls[i].at <= (calls + [c])[|calls|].at;
    assert Ordered(calls);
    var cutoff := RunTracks(calls, c.key, window, requests, c.at);
    DecideTracks(calls, c, window, requests, cutoff);
    GrantedRecent(calls, c, window, requests);
    ExactAfter(calls, c, window, requests);
    RunStep(calls, c, window, requests);
    Sound(calls, c.key, window, requests, c.at);
  }

  lemma ExactAfter(calls: seq<Call>, c: Call, window: int, requests: int)
    requires window >= 1 && Ordered(calls + [c])
    ensures var log := Granted(calls + [c], c.key, window, requests);
            && Prune(log, c.at - window) == Within(log, c.at - window, c.at)
            && Sorted(Within(log, c.at - window, c.at))
  {
    var all := calls + [c];
    assert forall i | 0 <= i < |all| :: all[i].at <= all[|calls|].at == c.at;
    AdmittedSorted(all, Decisions(all, window, requests), c.key);
    AdmittedBounded(all, Decisions(all, window, requests), c.key, c.at);
    PruneIsWithin(Granted(all, c.key, window, requests), c.at - window, c.at);
    PruneSorted(Granted(all, c.key, window, requests), c.at - window);
  }

  lemma {:induction false} PruneSorted(log: seq<int>, cutoff: int)
    requires Sorted(log)
    ensures Sorted(Prune(log, cutoff))
  {
    if log != [] && log[0] <= cutoff {
      PruneSorted(log[1..], cutoff);
    }
  }

  // ---- soundness --------------------------------------------------------------------------------

  lemma {:induction false} NarrowerHoldsFewer(log: seq<int>, low: int, high: int, low': int, high': int)
    requires low <= low' && Bounded(log, high)
    ensures |Within(log, low', high')| <= |Within(log, low, high)|
  {
    if log != [] {
      NarrowerHoldsFewer(log[..|log| - 1], low, high, low', high');
    }
  }

  /** Soundness: every interval `(t - window, t]` holds at most `requests` admissions of a key. */
  lemma {:induction false} Sound(calls: seq<Call>, key: string, window: int, requests: int, t: int)
    requires window >= 1 && requests >= 1 && Ordered(calls)
    ensures |Within(Granted(calls, key, window, requests), t - window, t)| <= requests
  {
    if calls != [] {
      var before, c := calls[..|calls| - 1], calls[|calls| - 1];
      assert calls == before + [c];
      Sound(before, key, window, requests, t);
      SoundStep(before, c, key, window, requests, t);
    }
  }

  /** Before an admission at `now`, every window that reaches `now` holds fewer than `requests`. */
  lemma RoomBefore(calls: seq<Call>, c: Call, window: int, requests: int, t: int)
    requires window >= 1 && requests >= 1 && Ordered(calls + [c])
    requires Decisions(calls + [c], window, requests)[|calls|] && t >= c.at
    ensures |Within(Granted(calls, c.key, window, requests), t - window, t)| < requests
  {
    assert forall i | 0 <= i < |calls| :: calls[i] == (calls + [c])[i] && calls[i].at <= (calls + [c])[|calls|].at;
    assert Ordered(calls);
    var cutoff := RunTracks(calls, c.key, window, requests, c.at);
    DecideTracks(calls, c, window, requests, cutoff);
    GrantedRecent(calls, c, window, requests);
    AdmittedBounded(calls, Decisions(calls, window, requests), c.key, c.at);
    NarrowerHoldsFewer(Granted(calls, c.key, window, requests), c.at - window, c.at, t - window, t);
  }

  lemma SoundStep(calls: seq<Call>, c: Call, key: string, window: int, requests: int, t: int)
    requires window >= 1 && requests >= 1 && Ordered(calls + [c])
    requires |Within(Granted(calls, key, window, requests), t - window, t)| <= requests
    ensures |Within(Granted(calls + [c], key, window, requests), t - window, t)| <= requests
  {
    var (w, ds) := Run(calls, window, requests);
    var d := Decide(w, c.key, c.at, window, requests).1;
    RunStep(calls, c, window, requests);
    AdmittedStep(calls, ds, c, d, key);
    WithinAppend(Granted(calls, key, window, requests), c.at, t - window, t);
    if c.key == key && d && t >= c.at {
      RoomBefore(calls, c, window, requests, t);
    }
  }

  // ---- greedy optimality ---------------------------------------------------------------------------

  /** How many calls come no later than the cutoff. */
  function UpTo(calls: seq<Call>, cutoff: int): (m: nat)
    requires Ordered(calls)
    ensures m <= |calls|
    ensures forall i | 0 <= i < m :: calls[i].at <= cutoff
    ensures forall i | m <= i < |calls| :: calls[i].at > cutoff
  {
    if calls == [] then 0
    else if calls[|calls| - 1].at > cutoff then UpTo(calls[..|calls| - 1], cutoff)
    else |calls|
  }

  /** Admissions split into those up to the cutoff and those after it. */
  lemma {:induction false} AdmittedSplit(calls: seq<Call>, ds: seq<bool>, key: string, m: nat, cutoff: int, high: int)
    requires |ds| == |calls| && m <= |calls|
    requires forall i | 0 <= i < m :: calls[i].at <= cutoff
    requires forall i | m <= i < |calls| :: cutoff < calls[i].at <= high
    ensures |Admitted(calls, ds, key)|
         == |Admitted(calls[..m], ds[..m], key)| + |Within(Admitted(calls, ds, key), cutoff, high)|
  {
    if m == |calls| {
      assert calls[..m] == calls && ds[..m] == ds;
      AdmittedBounded(calls, ds, key, cutoff);
      NoneWithin(Admitted(calls, ds, key), cutoff, high);
    } else {
      var n := |calls| - 1;
      AdmittedSplit(calls[..n], ds[..n], key, m, cutoff, high);
      AdmittedLast(calls, ds, key);
      assert calls[..n][..m] == calls[..m] && ds[..n][..m] == ds[..m];
      WithinAppend(Admitted(calls[..n], ds[..n], key), calls[n].at, cutoff, high);
    }
  }

  lemma {:induction false} NoneWithin(log: seq<int>, cutoff: int, high: int)
    requires Bounded(log, cutoff)
    ensures Within(log, cutoff, high) == []
  {
    if log != [] {
      NoneWithin(log[..|log| - 1], cutoff, high);
    }
  }

  lemma {:induction false} PrefixDecisions(calls: seq<Call>, n: nat, window: int, requests: int)
    requires n <= |calls|
    ensures Decisions(calls, window, requests)[..n] == Decisions(calls[..n], window, requests)
  {
    if n < |calls| {
      PrefixDecisions(calls[..|calls| - 1], n, window, requests);
      assert calls[..|calls| - 1][..n] == calls[..n];
    } else {
      assert calls[..n] == calls;
    }
  }

  /** A prefix of a feasible schedule is feasible. */
  lemma {:induction false} PrefixFeasible(calls: seq<Call>, ds: seq<bool>, key: string, low: int, high: int)
    requires |ds| == |calls| > 0
    ensures var n := |calls| - 1;
            |Within(Admitted(calls[..n], ds[..n], key), low, high)| <= |Within(Admitted(calls, ds, key), low, high)|
  {
    var n := |calls| - 1;
    AdmittedLast(calls, ds, key);
    WithinAppend(Admitted(calls[..n], ds[..n], key), calls[n].at, low, high);
  }

  lemma FeasiblePrefix(calls: seq<Call>, ds: seq<bool>, window: int, requests: int)
    requires |ds| == |calls| > 0 && Feasible(calls, ds, window, requests)
    ensures var n := |calls| - 1; Feasible(calls[..n], ds[..n], window, requests)
  {
    var n := |calls| - 1;
    forall key, t ensures Load(calls[..n], ds[..n], key, window, t) <= requests {
      PrefixFeasible(calls, ds, key, t - window, t);
      assert Load(calls, ds, key, window, t) <= requests;
    }
  }

  lemma {:induction false} FeasibleUpTo(calls: seq<Call>, ds: seq<bool>, n: nat, window: int, requests: int)
    requires |ds| == |calls| && n <= |calls| && Feasible(calls, ds, window, requests)
    ensures Feasible(calls[..n], ds[..n], window, requests)
  {
    if n == |calls| {
      assert calls[..n] == calls && ds[..n] == ds;
    } else {
      FeasiblePrefix(calls, ds, window, requests);
      var m := |calls| - 1;
      FeasibleUpTo(calls[..m], ds[..m], n, window, requests);
      assert calls[..m][..n] == calls[..n] && ds[..m][..n] == ds[..n];
    }
  }

  /** When the limiter rejects, its window is full. */
  lemma RejectedIsFull(before: seq<Call>, c: Call, window: int, requests: int)
    requires window >= 1 && requests >= 1 && Ordered(before + [c])
    requires !Decisions(before + [c], window, requests)[|before|]
    ensures Granted(before + [c], c.key, window, requests) == Granted(before, c.key, window, requests)
    ensures |Within(Granted(before, c.key, window, requests), c.at - window, c.at)| == requests
  {
    Exact(before, c, window, requests);
    GrantedStep(before, c, window, requests);
  }

  lemma SplitAtWindow(before: seq<Call>, key: string, window: int, requests: int, m: nat, cutoff: int, high: int)
    requires m <= |before|
    requires forall i | 0 <= i < m :: before[i].at <= cutoff
    requires forall i | m <= i < |before| :: cutoff < before[i].at <= high
    ensures |Granted(before, key, window, requests)|
         == |Granted(before[..m], key, window, requests)|
            + |Within(Granted(before, key, window, requests), cutoff, high)|
  {
    PrefixDecisions(before, m, window, requests);
    AdmittedSplit(before, Decisions(before, window, requests), key, m, cutoff, high);
  }

  /** When the limiter rejects, it has admitted `requests` more calls than it had when the window opened. */
  lemma RejectedIsAhead(before: seq<Call>, c: Call, window: int, requests: int, m: nat)
    requires window >= 1 && requests >= 1 && Ordered(before + [c]) && m <= |before|
    requires !Decisions(before + [c], window, requests)[|before|]
    requires forall i | 0 <= i < m :: before[i].at <= c.at - window
    requires forall i | m <= i < |before| :: c.at - window < before[i].at <= c.at
    ensures |Granted(before + [c], c.key, window, requests)|
         == |Granted(before[..m], c.key, window, requests)| + requests
  {
    RejectedIsFull(before, c, window, requests);
    SplitAtWindow(before, c.key, window, requests, m, c.at - window, c.at);
  }

  /** Another schedule cannot have admitted more than `requests` since the window of a call opened. */
  lemma {:induction false} OtherIsBehind(calls: seq<Call>, ds: seq<bool>, key: string, window: int, requests: int,
                                         m: nat, now: int)
    requires |ds| == |calls| && m <= |calls| && Feasible(calls, ds, window, requests)
    requires forall i | 0 <= i < m :: calls[i].at <= now - window
    requires forall i | m <= i < |calls| :: now - window < calls[i].at <= now
    ensures |Admitted(calls, ds, key)| <= |Admitted(calls[..m], ds[..m], key)| + requests
  {
    AdmittedSplit(calls, ds, key, m, now - window, now);
    LoadBound(calls, ds, key, window, requests, now);
  }

  lemma {:induction false} LoadBound(calls: seq<Call>, ds: seq<bool>, key: string, window: int, requests: int, t: int)
    requires |ds| == |calls| && Feasible(calls, ds, window, requests)
    ensures |Within(Admitted(calls, ds, key), t - window, t)| <= requests
  {
    assert Load(calls, ds, key, window, t) <= requests;
  }

  /** The step of the stay-ahead argument for a call that the limiter rejects. */
  lemma {:induction false} AheadAtRejection(calls: seq<Call>, ds: seq<bool>, window: int, requests: int, m: nat)
    requires window >= 1 && requests >= 1 && Ordered(calls) && |ds| == |calls| > 0
    requires Feasible(calls, ds, window, requests)
    requires !Decisions(calls, window, requests)[|calls| - 1]
    requires m == UpTo(calls, calls[|calls| - 1].at - window)
    requires var key := calls[|calls| - 1].key;
             |Admitted(calls[..m], ds[..m], key)| <= |Granted(calls[..m], key, window, requests)|
    ensures var key := calls[|calls| - 1].key;
            |Admitted(calls, ds, key)| <= |Granted(calls, key, window, requests)|
  {
    var n := |calls| - 1;
    var before, c := calls[..n], calls[n];
    assert calls == before + [c] && before[..m] == calls[..m];
    RejectedIsAhead(before, c, window, requests, m);
    OtherIsBehind(calls, ds, c.key, window, requests, m, c.at);
  }

  /** The step for a call of another key, or one that the limiter admits. */
  lemma {:induction false} AheadOtherwise(calls: seq<Call>, ds: seq<bool>, key: string, window: int, requests: int)
    requires |ds| == |calls| > 0
    requires var n := |calls| - 1;
             && (calls[n].key != key || Decisions(calls, window, requests)[n])
             && |Admitted(calls[..n], ds[..n], key)| <= |Granted(calls[..n], key, window, requests)|
    ensures |Admitted(calls, ds, key)| <= |Granted(calls, key, window, requests)|
  {
    var n := |calls| - 1;
    PrefixDecisions(calls, n, window, requests);
    AdmittedLast(calls, ds, key);
    AdmittedLast(calls, Decisions(calls, window, requests), key);
  }

  /**
   * Stay-ahead: no schedule that keeps at most `requests` admissions per key in every window has admitted
   * more calls of a key, at the end of the calls, than the limiter.
   */
  lemma {:induction false} StaysAhead(calls: seq<Call>, ds: seq<bool>, key: string, window: int, requests: int)
    requires window >= 1 && requests >= 1 && Ordered(calls) && |ds| == |calls|
    requires Feasible(calls, ds, window, requests)
    ensures |Admitted(calls, ds, key)| <= |Granted(calls, key, window, requests)|
    decreases |calls|
  {
    if calls != [] {
      var n := |calls| - 1;
      var c := calls[n];
      if c.key != key || Decisions(calls, window, requests)[n] {
        FeasiblePrefix(calls, ds, window, requests);
        StaysAhead(calls[..n], ds[..n], key, window, requests);
        AheadOtherwise(calls, ds, key, window, requests);
      } else {
        var m := UpTo(calls, c.at - window);
        FeasibleUpTo(calls, ds, m, window, requests);
        StaysAhead(calls[..m], ds[..m], key, window, requests);
        AheadAtRejection(calls, ds, window, requests, m);
      }
    }
  }

  /**
   * Greedy optimality: in every prefix and for every key, the limiter has admitted at least as many calls
   * as any other schedule that keeps at most `requests` per window - and it is itself such a schedule.
   */
  lemma GreedyOptimal(calls: seq<Call>, ds: seq<bool>, window: int, requests: int)
    requires window >= 1 && requests >= 1 && Ordered(calls) && |ds| == |calls|
    ensures Feasible(calls, Decisions(calls, window, requests), window, requests)
    ensures Feasible(calls, ds, window, requests) ==>
              forall key, n | 0 <= n <= |calls| ::
                |Admitted(calls[..n], ds[..n], key)|
                <= |Admitted(calls[..n], Decisions(calls, window, requests)[..n], key)|
  {
    forall key, t ensures Load(calls, Decisions(calls, window, requests), key, window, t) <= requests {
      Sound(calls, key, window, requests, t);
    }
    if Feasible(calls, ds, window, requests) {
      forall key, n | 0 <= n <= |calls|
        ensures |Admitted(calls[..n], ds[..n], key)|
             <= |Admitted(calls[..n], Decisions(calls, window, requests)[..n], key)|
      {
        FeasibleUpTo(calls, ds, n, window, requests);
        StaysAhead(calls[..n], ds[..n], key, window, requests);
        PrefixDecisions(calls, n, window, requests);
      }
    }
  }
}
