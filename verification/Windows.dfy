/** The half-open time windows that events are filed under (index.go:70-93, 224-247) and how the engine chooses,
    creates, orders and drops them (engine.go:225-294). Times are nanoseconds since 1970. */
module Windows {
  import opened Sequences

  type Time = int

  /** The time that durations are truncated from: the first of January of year 1. */
  const ZERO_TIME: Time := -62_135_596_800_000_000_000

  datatype Window = Window(start: Time, end: Time) {

    predicate Contains(t: Time) {
      (t == start || t > start) && t < end
    }

    predicate Expired(now: Time, retention: int) {
      end + retention < now
    }
  }

  /** The order that windows are sorted by: later end first, or later start. It is an order only on windows that
      do not nest. */
  predicate WindowLess(u: Window, v: Window) {
    u.end > v.end || u.start > v.start
  }

  function Truncate(t: Time, d: int): Time {
    if d <= 0 then t else t - (t - ZERO_TIME) % d
  }

  // ----- Choosing and requesting a window -----

  /** The first window that contains t, or |ws|. */
  function Find(ws: seq<Window>, t: Time): (k: nat)
    ensures k <= |ws|
    ensures k < |ws| ==> ws[k].Contains(t)
    ensures forall i | 0 <= i < k :: !ws[i].Contains(t)
  {
    if ws == [] || ws[0].Contains(t) then 0
    else 1 + Find(ws[1..], t)
  }

  datatype Request = Granted(window: Window) | AssertionFailed

  /** The first window that starts at t, or |ws|. */
  function FindStart(ws: seq<Window>, t: Time): (k: nat)
    ensures k <= |ws|
    ensures k < |ws| ==> ws[k].start == t
    ensures forall i | 0 <= i < k :: ws[i].start != t
  {
    if ws == [] || ws[0].start == t then 0
    else 1 + FindStart(ws[1..], t)
  }

  /** The window that is created: if one with the same start exists, the new one starts at its end. */
  function CreateWindow(ws: seq<Window>, start: Time, end: Time): Request {
    var k := FindStart(ws, start);
    if k == |ws| then Granted(Window(start, end))
    else if ws[k].end > end then AssertionFailed
    else Granted(Window(ws[k].end, end))
  }

  /** Without an index of the same start the window is as requested; the first one of the same start shifts the start
      to its end, unless nothing is left then. */
  lemma CreatedWindow(ws: seq<Window>, start: Time, end: Time)
    ensures (forall i | 0 <= i < |ws| :: ws[i].start != start) ==>
              CreateWindow(ws, start, end) == Granted(Window(start, end))
    ensures forall k | 0 <= k < |ws| && ws[k].start == start && (forall i | 0 <= i < k :: ws[i].start != start) ::
              CreateWindow(ws, start, end) ==
              if ws[k].end > end then AssertionFailed else Granted(Window(ws[k].end, end))
  {
  }

  function RequestFor(ws: seq<Window>, t: Time, d: int): Request {
    var start := Truncate(t, d);
    CreateWindow(ws, start, start + d)
  }

  /** For any window list at all, also overlapping or of mixed durations: if no window contains t, then the assertion
      on the start time holds and the window that is created contains t, in spite of the shifted start. */
  lemma RequestedWindowContains(ws: seq<Window>, t: Time, d: int)
    requires d > 0 && Find(ws, t) == |ws|
    ensures var r := RequestFor(ws, t, d); r.Granted? && r.window.Contains(t)
  {
    var start := Truncate(t, d);
    var k := FindStart(ws, start);
    if k < |ws| {
      assert !ws[k].Contains(t);
    }
  }

  /** With a duration that is not positive, the window created never contains t. */
  lemma DurationMustBePositive(ws: seq<Window>, t: Time, d: int)
    requires d <= 0 && RequestFor(ws, t, d).Granted?
    ensures !RequestFor(ws, t, d).window.Contains(t)
  {
  }

  // ----- Aligned windows -----

  /** The window is [k d, (k + 1) d), counted from the zero time. */
  predicate Aligned(w: Window, d: int)
    requires d > 0
  {
    (w.start - ZERO_TIME) % d == 0 && w.end == w.start + d
  }

  predicate Apart(u: Window, v: Window) {
    u.end <= v.start || v.end <= u.start
  }

  lemma AlignedAreEqualOrApart(u: Window, v: Window, d: int)
    requires d > 0 && Aligned(u, d) && Aligned(v, d)
    ensures u == v || Apart(u, v)
  {
    var i, j := (u.start - ZERO_TIME) / d, (v.start - ZERO_TIME) / d;
    assert u.start == ZERO_TIME + d * i && v.start == ZERO_TIME + d * j;
    if i < j {
      MultiplesApart(i, j, d);
    } else if j < i {
      MultiplesApart(j, i, d);
    }
  }

  lemma MultiplesApart(i: int, j: int, d: int)
    requires d > 0 && i < j
    ensures d * i + d <= d * j
  {
    var k := j - i - 1;
    assert d * j == d * i + d + d * k;
    ProductNotNegative(d, k);
  }

  lemma ProductNotNegative(x: int, y: int)
    requires x >= 0 && y >= 0
    ensures x * y >= 0
  {
  }

  /** Truncation gives the aligned window around t. */
  lemma TruncatedIsAligned(t: Time, d: int)
    requires d > 0
    ensures var w := Window(Truncate(t, d), Truncate(t, d) + d); Aligned(w, d) && w.Contains(t)
  {
    var x := t - ZERO_TIME;
    FloorIsMultiple(x, d);
  }

  lemma FloorIsMultiple(x: int, d: int)
    requires d > 0
    ensures (x - x % d) % d == 0
  {
    var q := x / d;
    assert x - x % d == d * q + 0;
    ModOfMultiple(q, d);
  }

  lemma ModOfMultiple(q: int, d: int)
    requires d > 0
    ensures (d * q) % d == 0
  {
    var r := (d * q) % d;
    var p := (d * q) / d;
    assert d * q == d * p + r && 0 <= r < d;
    assert d * (q - p) == r;
    if q - p >= 1 { MultiplesApart(0, q - p, d); } else if q - p <= -1 { MultiplesApart(q - p, 0, d); }
  }

  /** The aligned window that contains t is the one truncation gives. */
  lemma AlignedTruncate(w: Window, t: Time, d: int)
    requires d > 0 && Aligned(w, d) && w.Contains(t)
    ensures Truncate(t, d) == w.start
  {
    TruncatedIsAligned(t, d);
    AlignedAreEqualOrApart(Window(Truncate(t, d), Truncate(t, d) + d), w, d);
  }

  // ----- Windows and the year 1970 -----

  /** One of the aligned windows starts with 1970. */
  predicate BoundaryAt1970(d: int)
    requires d > 0
  {
    (0 - ZERO_TIME) % d == 0
  }

  lemma BoundarySeparates(t: Time, u: Time, d: int)
    requires d > 0 && BoundaryAt1970(d) && t < 0 <= u
    ensures Truncate(t, d) != Truncate(u, d)
  {
    TruncatedIsAligned(t, d);
    TruncatedIsAligned(u, d);
    AlignedAreEqualOrApart(Window(Truncate(t, d), Truncate(t, d) + d), Window(0, d), d);
  }

  /** Times from before and from after the beginning of 1970 share a window exactly if no window starts there. */
  lemma SharedWindowIff(d: int)
    requires d > 0
    ensures (exists t, u :: t < 0 <= u && Truncate(t, d) == Truncate(u, d)) <==> !BoundaryAt1970(d)
    ensures !BoundaryAt1970(d) ==> Truncate(-1, d) == Truncate(0, d)
  {
    if BoundaryAt1970(d) {
      forall t, u | t < 0 <= u ensures Truncate(t, d) != Truncate(u, d) { BoundarySeparates(t, u, d); }
    } else {
      TruncatedIsAligned(0, d);
      var w := Window(Truncate(0, d), Truncate(0, d) + d);
      AlignedTruncate(w, -1, d);
    }
  }

  /** The duration of an index unless set otherwise: 24 hours. */
  const DEFAULT_DURATION := 86_400_000_000_000

  const WEEK := 7 * DEFAULT_DURATION

  lemma DaysMeetAt1970WeeksDoNot()
    ensures BoundaryAt1970(DEFAULT_DURATION) && !BoundaryAt1970(WEEK)
  {
    assert 0 - ZERO_TIME == 719_162 * DEFAULT_DURATION;
    assert 719_162 * DEFAULT_DURATION == 102_737 * WEEK + 3 * DEFAULT_DURATION;
  }

  // ----- The list of windows -----

  ghost predicate AllAligned(ws: seq<Window>, d: int)
    requires d > 0
  {
    forall i | 0 <= i < |ws| :: Aligned(ws[i], d)
  }

  /** Newest first, and disjoint: each window ends before those in front of it start. */
  ghost predicate Descending(ws: seq<Window>) {
    forall i, j | 0 <= i < j < |ws| :: ws[j].end <= ws[i].start
  }

  /** What every step keeps of the window list. */
  ghost predicate Tiled(ws: seq<Window>, d: int) {
    d > 0 && AllAligned(ws, d) && Descending(ws)
  }

  /** If no window contains t, then the window created for t is the aligned one: on an aligned list the start is
      never shifted. */
  lemma AlignedRequest(ws: seq<Window>, t: Time, d: int)
    requires Tiled(ws, d) && Find(ws, t) == |ws|
    ensures var r := RequestFor(ws, t, d);
            && r.Granted? && Aligned(r.window, d) && r.window.Contains(t)
            && forall i | 0 <= i < |ws| :: Apart(r.window, ws[i])
  {
    TruncatedIsAligned(t, d);
    var w := Window(Truncate(t, d), Truncate(t, d) + d);
    var k := FindStart(ws, w.start);
    assert k == |ws| by {
      assert forall i | 0 <= i < |ws| && ws[i].start == w.start :: ws[i].Contains(t);
    }
    forall i | 0 <= i < |ws| ensures Apart(w, ws[i]) {
      AlignedAreEqualOrApart(w, ws[i], d);
    }
  }

  /** Where a window belongs in a descending list. */
  function Position(ws: seq<Window>, w: Window): (k: nat)
    ensures k <= |ws|
    ensures k < |ws| ==> ws[k].start < w.start
    ensures forall i | 0 <= i < k :: ws[i].start >= w.start
  {
    if ws == [] || ws[0].start < w.start then 0
    else 1 + Position(ws[1..], w)
  }

  lemma InsertKeepsTiled(ws: seq<Window>, w: Window, d: int)
    requires Tiled(ws, d) && Aligned(w, d) && forall i | 0 <= i < |ws| :: Apart(w, ws[i])
    ensures Tiled(InsertAt(ws, Position(ws, w), w), d)
  {
    var k := Position(ws, w);
    forall i | k <= i < |ws| ensures ws[i].end <= w.start {
      assert Apart(w, ws[i]);
      if i > k { assert ws[i].end <= ws[k].start; }
    }
    forall i | 0 <= i < k ensures w.end <= ws[i].start {
      assert Apart(w, ws[i]);
    }
    InsertDescends(ws, k, w);
  }

  lemma InsertDescends(ws: seq<Window>, k: nat, w: Window)
    requires k <= |ws| && Descending(ws)
    requires forall i | k <= i < |ws| :: ws[i].end <= w.start
    requires forall i | 0 <= i < k :: w.end <= ws[i].start
    ensures Descending(InsertAt(ws, k, w))
  {
    var r := InsertAt(ws, k, w);
    assert forall i | 0 <= i < |r| :: r[i] == if i < k then ws[i] else if i == k then w else ws[i - 1];
  }

  // ----- Sorting gives the only descending arrangement -----

  function WindowsOf<T>(s: seq<T>, window: T -> Window): (ws: seq<Window>)
    ensures |ws| == |s| && forall i | 0 <= i < |s| :: ws[i] == window(s[i])
  {
    seq(|s|, i requires 0 <= i < |s| => window(s[i]))
  }

  ghost predicate DescendingBy<T>(s: seq<T>, window: T -> Window) {
    forall i, j | 0 <= i < j < |s| :: window(s[j]).end <= window(s[i]).start
  }

  ghost predicate NonEmptyBy<T>(s: seq<T>, window: T -> Window) {
    forall i | 0 <= i < |s| :: window(s[i]).start < window(s[i]).end
  }

  /** Pairwise disjoint, position by position. */
  ghost predicate ApartBy<T>(s: seq<T>, window: T -> Window) {
    forall i, j | 0 <= i < j < |s| :: Apart(window(s[i]), window(s[j]))
  }

  /** No later element belongs in front of an earlier one. */
  ghost predicate SortedBy<T>(s: seq<T>, window: T -> Window) {
    forall i, j | 0 <= i < j < |s| :: !WindowLess(window(s[j]), window(s[i]))
  }

  /** On disjoint windows that are not empty, sorted means newest first. */
  lemma SortedIsDescending<T>(s: seq<T>, window: T -> Window)
    requires SortedBy(s, window) && ApartBy(s, window) && NonEmptyBy(s, window)
    ensures DescendingBy(s, window)
  {
    forall i, j | 0 <= i < j < |s| ensures window(s[j]).end <= window(s[i]).start {
      assert Apart(window(s[i]), window(s[j]));
    }
  }

  lemma InsertedWindows<T>(s: seq<T>, k: nat, x: T, window: T -> Window)
    requires k <= |s|
    ensures WindowsOf(InsertAt(s, k, x), window) == InsertAt(WindowsOf(s, window), k, window(x))
  {
  }

  lemma DescendingWindows<T>(s: seq<T>, window: T -> Window)
    requires Descending(WindowsOf(s, window))
    ensures DescendingBy(s, window)
  {
    var ws := WindowsOf(s, window);
    forall i, j | 0 <= i < j < |s| ensures window(s[j]).end <= window(s[i]).start {
      assert ws[j].end <= ws[i].start;
    }
  }

  /** Two descending arrangements of the same elements are the same, so it does not matter how they are sorted. */
  lemma {:induction false} DescendingIsUnique<T>(r: seq<T>, s: seq<T>, window: T -> Window)
    requires multiset(r) == multiset(s) && DescendingBy(r, window) && DescendingBy(s, window)
    requires NonEmptyBy(r, window) && NonEmptyBy(s, window)
    ensures r == s
    decreases |r|
  {
    assert |r| == |multiset(r)| && |s| == |multiset(s)|;
    if r != [] {
      HeadsAgree(r, s, window);
      MultisetTail(r);
      MultisetTail(s);
      DescendingIsUnique(r[1..], s[1..], window);
    }
  }

  lemma HeadsAgree<T>(r: seq<T>, s: seq<T>, window: T -> Window)
    requires r != [] && s != [] && multiset(r) == multiset(s)
    requires DescendingBy(r, window) && DescendingBy(s, window) && NonEmptyBy(r, window) && NonEmptyBy(s, window)
    ensures r[0] == s[0]
  {
    assert r[0] in multiset(s) && s[0] in multiset(r);
    var i :| 0 <= i < |s| && s[i] == r[0];
    var j :| 0 <= j < |r| && r[j] == s[0];
  }

  // ----- Retention -----

  ghost predicate NonDecreasing(nows: seq<Time>) {
    forall i, j | 0 <= i < j < |nows| :: nows[i] <= nows[j]
  }

  /** What a retention pass keeps; the clock is read once for each window. */
  function Retained<T>(s: seq<T>, window: T -> Window, nows: seq<Time>, retention: int): (kept: seq<T>)
    requires |nows| == |s|
  {
    if s == [] then []
    else
      var n := |s| - 1;
      var front := Retained(s[..n], window, nows[..n], retention);
      if window(s[n]).Expired(nows[n], retention) then front else front + [s[n]]
  }

  /** What a pass keeps of any list: exactly the elements whose window, with the retention period added, does not end
      before the reading of the clock. */
  lemma {:induction false} RetainedIff<T>(s: seq<T>, window: T -> Window, nows: seq<Time>, retention: int, x: T)
    requires |nows| == |s|
    ensures x in Retained(s, window, nows, retention) <==>
            exists i | 0 <= i < |s| :: s[i] == x && window(s[i]).end + retention >= nows[i]
    decreases |s|
  {
    if s != [] {
      var n := |s| - 1;
      RetainedIff(s[..n], window, nows[..n], retention, x);
      assert forall i | 0 <= i < n :: s[..n][i] == s[i] && nows[..n][i] == nows[i];
    }
  }

  ghost predicate EndsDescend(ws: seq<Window>) {
    forall i, j | 0 <= i < j < |ws| :: ws[j].end <= ws[i].end
  }

  /** How many windows stand in front of the first expired one. */
  function KeptCount(ws: seq<Window>, nows: seq<Time>, retention: int): (k: nat)
    requires |nows| == |ws|
    ensures k <= |ws|
    ensures k < |ws| ==> ws[k].end + retention < nows[k]
    ensures forall i | 0 <= i < k :: ws[i].end + retention >= nows[i]
  {
    if ws == [] || ws[0].end + retention < nows[0] then 0
    else 1 + KeptCount(ws[1..], nows[1..], retention)
  }

  lemma {:induction false} RetainedPrefix<T>(s: seq<T>, window: T -> Window, nows: seq<Time>, retention: int, k: nat)
    requires |nows| == |s| && k <= |s|
    requires forall i | 0 <= i < k :: !window(s[i]).Expired(nows[i], retention)
    requires forall i | k <= i < |s| :: window(s[i]).Expired(nows[i], retention)
    ensures Retained(s, window, nows, retention) == s[..k]
    decreases |s|
  {
    if s != [] {
      var n := |s| - 1;
      if k == |s| {
        RetainedPrefix(s[..n], window, nows[..n], retention, n);
        assert s[..n] + [s[n]] == s;
      } else {
        RetainedPrefix(s[..n], window, nows[..n], retention, k);
        assert s[..n][..k] == s[..k];
      }
    }
  }

  /** With a clock that does not run backwards, on a list ordered by decreasing end, a pass keeps exactly the windows in
      front of the first expired one. */
  lemma RetentionKeepsPrefix<T>(s: seq<T>, window: T -> Window, nows: seq<Time>, retention: int)
    requires |nows| == |s| && EndsDescend(WindowsOf(s, window)) && NonDecreasing(nows)
    ensures Retained(s, window, nows, retention) == s[..KeptCount(WindowsOf(s, window), nows, retention)]
  {
    var ws := WindowsOf(s, window);
    var k := KeptCount(ws, nows, retention);
    forall i | k <= i < |s| ensures window(s[i]).Expired(nows[i], retention) {
      assert ws[i].end <= ws[k].end && nows[k] <= nows[i];
    }
    forall i | 0 <= i < k ensures !window(s[i]).Expired(nows[i], retention) { assert ws[i] == window(s[i]); }
    RetainedPrefix(s, window, nows, retention, k);
  }

  lemma DescendingEnds(ws: seq<Window>, d: int)
    requires Tiled(ws, d)
    ensures EndsDescend(ws)
  {
    forall i, j | 0 <= i < j < |ws| ensures ws[j].end <= ws[i].end { assert ws[j].end <= ws[i].start; }
  }

  /** A retention pass keeps the list tiled. */
  lemma RetentionKeepsTiled<T>(s: seq<T>, window: T -> Window, nows: seq<Time>, retention: int, d: int)
    requires |nows| == |s| && Tiled(WindowsOf(s, window), d) && NonDecreasing(nows)
    ensures Tiled(WindowsOf(Retained(s, window, nows, retention), window), d)
  {
    var ws := WindowsOf(s, window);
    var k := KeptCount(ws, nows, retention);
    DescendingEnds(ws, d);
    RetentionKeepsPrefix(s, window, nows, retention);
    assert WindowsOf(s[..k], window) == ws[..k];
  }

  /** A retention pass drops no window that holds an event which is still within the period at the last reading of
      the clock. */
  lemma RetentionIsSafe<T>(s: seq<T>, window: T -> Window, nows: seq<Time>, retention: int, i: nat, t: Time)
    requires |nows| == |s| && EndsDescend(WindowsOf(s, window)) && NonDecreasing(nows)
    requires i < |s| && window(s[i]).Contains(t) && t + retention >= nows[|s| - 1]
    ensures s[i] in Retained(s, window, nows, retention)
  {
    var ws := WindowsOf(s, window);
    var k := KeptCount(ws, nows, retention);
    RetentionKeepsPrefix(s, window, nows, retention);
    assert i < k;
    assert s[..k][i] == s[i];
  }

  /** The filter works in place: what it keeps is written over the front of the list it reads. It never overwrites an
      element before reading it, and the front ends up as the elements to keep, in order. */
  method FilterInPlace<T>(a: array<T>, window: T -> Window, nows: seq<Time>, retention: int) returns (kept: nat)
    requires |nows| == a.Length
    modifies a
    ensures kept <= a.Length
    ensures a[..kept] == Retained(old(a[..]), window, nows, retention)
  {
    ghost var all := a[..];
    kept := 0;
    for i := 0 to a.Length
      invariant kept <= i
      invariant forall j | i <= j < a.Length :: a[j] == all[j]  // nothing unread has been overwritten
      invariant a[..kept] == Retained(all[..i], window, nows[..i], retention)
    {
      assert a[i] == all[i];
      assert all[..i + 1][..i] == all[..i] && nows[..i + 1][..i] == nows[..i];
      if !window(a[i]).Expired(nows[i], retention) {
        a[kept] := a[i];
        kept := kept + 1;
      }
    }
    assert all[..a.Length] == all && nows[..a.Length] == nows;
  }
}
