/** Per-resource histories, newest value first: window retrieval and expiry (mreposl.c). */
module History {
  import opened CBytes

  datatype MetricValue = MetricValue(
    id: int, timeStamp: Time, resource: CString, systemId: CString, dataType: nat, data: seq<byte>)

  type Values = seq<MetricValue>

  ghost predicate NewestFirst(h: Values) {
    forall i, j :: 0 <= i < j < |h| ==> h[i].timeStamp >= h[j].timeStamp
  }

  /** Number of leading values that are not older than `t`. */
  function Boundary(h: Values, t: int): (n: nat)
    ensures n <= |h|
    ensures forall k :: 0 <= k < n ==> h[k].timeStamp >= t
    ensures n < |h| ==> h[n].timeStamp < t
  {
    if h == [] || h[0].timeStamp < t then 0 else 1 + Boundary(h[1..], t)
  }

  function Filter<T>(s: seq<T>, p: T -> bool): seq<T> {
    if s == [] then [] else (if p(s[0]) then [s[0]] else []) + Filter(s[1..], p)
  }

  lemma {:induction false} FilterSlice<T>(s: seq<T>, p: T -> bool, b: nat, c: nat)
    requires b <= c <= |s|
    requires forall k :: 0 <= k < |s| ==> (p(s[k]) <==> b <= k < c)
    ensures Filter(s, p) == s[b..c]
  {
    if s != [] {
      if b > 0 {
        FilterSlice(s[1..], p, b - 1, c - 1);
      } else if c > 0 {
        FilterSlice(s[1..], p, 0, c - 1);
        assert s[..c] == [s[0]] + s[1..][..c - 1];
      } else {
        FilterSlice(s[1..], p, 0, 0);
      }
    }
  }

  // ----- retrieval -----

  /** The values stamped within `from..to`. */
  function InWindow(h: Values, from: int, to: int): Values {
    Filter(h, (v: MetricValue) => from <= v.timeStamp <= to)
  }

  function OlderThan(h: Values, t: int): Values {
    Filter(h, (v: MetricValue) => v.timeStamp < t)
  }

  /** Upper end of the window and limit on the number of values that a query stands for. */
  function Effective(from: Time, to: Time, maxnum: int): (r: (Time, int))
    ensures 1 <= r.1
  {
    var upTo := if to == 0 || to == -1 then LONG_MAX else to;
    if maxnum <= 0 then (upTo, INT_MAX)
    else if upTo == from then (LONG_MAX, maxnum)
    else (upTo, maxnum)
  }

  /** What a query should return: everything in the window if it fits the limit; else its newest part
      when no start is given, its oldest part otherwise.  A query for two values that finds one is
      completed with the value before the window. */
  function Expected(h: Values, from: Time, to: Time, maxnum: int): Values {
    var (upTo, limit) := Effective(from, to, maxnum);
    Limited(InWindow(h, from, upTo), OlderThan(h, from), from, limit)
  }

  function Limited(window: Values, older: Values, from: Time, limit: int): Values
    requires 1 <= limit
  {
    if |window| > limit then (if from == 0 then window[..limit] else window[|window| - limit..])
    else if limit == 2 && |window| == 1 && older != [] then window + older[..1]
    else window
  }

  /** Where there are more values than the limit, those left out are not newer than any that are returned if no start
      is given, and not older otherwise. */
  lemma LimitedByTime(window: Values, older: Values, from: Time, limit: int) returns (out: Values)
    requires NewestFirst(window) && 1 <= limit < |window|
    ensures var r := Limited(window, older, from, limit);
      && |r| == limit && multiset(r) + multiset(out) == multiset(window)
      && (from == 0 ==> forall x, y :: x in r && y in out ==> y.timeStamp <= x.timeStamp)
      && (from != 0 ==> forall x, y :: x in r && y in out ==> y.timeStamp >= x.timeStamp)
  {
    var cut := if from == 0 then limit else |window| - limit;
    assert window == window[..cut] + window[cut..];
    out := if from == 0 then window[cut..] else window[..cut];
  }

  /** A pair asked for and found by half is completed with the newest value before the window; otherwise a window
      within the limit is returned as it is. */
  lemma Completed(window: Values, older: Values, from: Time, limit: int)
    requires NewestFirst(older) && 1 <= limit && |window| <= limit
    ensures var r := Limited(window, older, from, limit);
      if limit == 2 && |window| == 1 && older != [] then
        |r| == 2 && r[0] == window[0] && r[1] in older && forall y :: y in older ==> y.timeStamp <= r[1].timeStamp
      else r == window
  {
  }

  function Since(h: Values, from: int): Values {
    Filter(h, (v: MetricValue) => from <= v.timeStamp)
  }

  lemma {:induction false} OpenWindow(h: Values, from: int)
    ensures InWindow(h, from, LONG_MAX) == Since(h, from)
  {
    if h != [] {
      OpenWindow(h[1..], from);
    }
  }

  lemma {:induction false} FilterLength<T>(s: seq<T>, p: T -> bool)
    ensures |Filter(s, p)| <= |s|
  {
    if s != [] {
      FilterLength(s[1..], p);
    }
  }

  /** The forms of a query, spelled out: without a limit everything in the window; without an end everything since
      the start; and with a limit and `from == to` there is no end either. */
  lemma QueryForms(h: Values, from: Time, to: Time, maxnum: int)
    requires |h| <= INT_MAX
    ensures maxnum <= 0 && to != 0 && to != -1 ==> Expected(h, from, to, maxnum) == InWindow(h, from, to)
    ensures maxnum <= 0 && (to == 0 || to == -1) ==> Expected(h, from, to, maxnum) == Since(h, from)
    ensures maxnum > 0 && (to == 0 || to == -1 || to == from) ==>
      Expected(h, from, to, maxnum) == Limited(Since(h, from), OlderThan(h, from), from, maxnum)
  {
    OpenWindow(h, from);
    FilterLength(h, (v: MetricValue) => from <= v.timeStamp <= to);
    FilterLength(h, (v: MetricValue) => from <= v.timeStamp <= LONG_MAX);
  }

  lemma {:induction false} CrossedWindow(h: Values, from: int, to: int)
    requires from > to
    ensures InWindow(h, from, to) == []
  {
    if h != [] {
      CrossedWindow(h[1..], from, to);
    }
  }

  /** What the comment on the retrieval promises for a limit and `from >= to`: that many values, starting with
      `from`. */
  function Documented(h: Values, from: Time, maxnum: int): Values
    requires maxnum > 0
  {
    Limited(Since(h, from), OlderThan(h, from), from, maxnum)
  }

  /** When it keeps that promise: with `from == to`, with no end at all, or if there is nothing to return.  In every
      other case the answer is empty. */
  lemma CommentHonouredIff(h: Values, from: Time, to: Time, maxnum: int)
    requires |h| <= INT_MAX && maxnum > 0 && from >= to
    ensures Expected(h, from, to, maxnum) == Documented(h, from, maxnum)
      <==> from == to || to == 0 || to == -1 || Since(h, from) == []
    ensures from > to && to != 0 && to != -1 ==> Expected(h, from, to, maxnum) == []
  {
    QueryForms(h, from, to, maxnum);
    if from > to {
      CrossedWindow(h, from, to);
    }
  }

  /** An input that shows it: one value stamped 200, asked for by from 150 and to 100. */
  lemma CommentBroken(v: MetricValue)
    requires v.timeStamp == 200
    ensures Documented([v], 150, 1) == [v] && Expected([v], 150, 100, 1) == []
  {
    assert [v][1..] == [];
    assert Since([v], 150) == [v] + Since([], 150) == [v];
    CommentHonouredIff([v], 150, 100, 1);
  }

  /** The first `b` values lie above the window, the first `c` ones are not below it. */
  ghost predicate Bounds(h: Values, from: int, upTo: int, b: nat, c: nat) {
    && b <= |h| && c <= |h|
    && forall k {:trigger h[k]} :: 0 <= k < |h| ==>
      (h[k].timeStamp > upTo <==> k < b) && (h[k].timeStamp >= from <==> k < c)
  }

  lemma BoundsExist(h: Values, from: int, upTo: int) returns (b: nat, c: nat)
    requires NewestFirst(h)
    ensures Bounds(h, from, upTo, b, c)
  {
    b, c := Boundary(h, upTo + 1), Boundary(h, from);
  }

  lemma WindowSlice(h: Values, from: int, to: int, b: nat, c: nat)
    requires Bounds(h, from, to, b, c)
    ensures InWindow(h, from, to) == (if b <= c then h[b..c] else []) && OlderThan(h, from) == h[c..]
  {
    FilterSlice(h, (v: MetricValue) => from <= v.timeStamp <= to, if b <= c then b else c, c);
    FilterSlice(h, (v: MetricValue) => v.timeStamp < from, c, |h|);
  }

  function Min(x: int, y: int): int { if x <= y then x else y }

  /** Start and length of the block that the window loop selects from a newest-first history. */
  ghost predicate Selects(h: Values, from: Time, limit: int, b: nat, c: nat, first: int, num: int) {
    if limit == 2 && c == b + 1 && c < |h| then first == b && num == 2
    else if c <= b then num == 0
    else num == Min(c - b, limit) && first == if from == 0 then b else c - num
  }

  lemma SelectsLimited(h: Values, from: Time, limit: int, b: nat, c: nat, first: int, num: int)
    requires 1 <= limit && b <= |h| && c <= |h| && Selects(h, from, limit, b, c, first, num)
    ensures var r := Limited(if b <= c then h[b..c] else [], h[c..], from, limit);
      num == |r| && (num > 0 ==> 0 <= first && first + num <= |h| && r == h[first..first + num])
  {
    var window, older := if b <= c then h[b..c] else [], h[c..];
    if c <= b {
      assert window == [];
    } else if limit < c - b {
      SliceOfSlice(h, b, c, limit);
    } else if limit == 2 && c == b + 1 && c < |h| {
      assert |window| == 1 && older != [];
      assert window + older[..1] == h[b..b + 2];
    } else {
      assert Limited(window, older, from, limit) == window;
    }
  }

  lemma SliceOfSlice(h: Values, b: nat, c: nat, n: nat)
    requires b <= c <= |h| && n <= c - b
    ensures h[b..c][..n] == h[b..b + n] && h[b..c][c - b - n..] == h[c - n..c]
  {
  }

  /** The window loop.  `first == -1` is the NULL pointer. */
  method SelectBlock(h: Values, from: Time, upTo: Time, limit: int, ghost b: nat, ghost c: nat)
    returns (first: int, num: int)
    requires limit >= 1
    ensures 0 <= num <= limit && (num > 0 ==> 0 <= first && first + num <= |h|)
    ensures Bounds(h, from, upTo, b, c) ==> Selects(h, from, limit, b, c, first, num)
  {
    ghost var sorted, extra := Bounds(h, from, upTo, b, c), false;
    num, first := 0, -1;
    var mrv := 0;
    while mrv < |h| && (from <= h[mrv].timeStamp || (limit == 2 && num == 1))
      invariant 0 <= mrv <= |h| && 0 <= num <= limit
      invariant if num == 0 then first == -1 else 0 <= first && first + num <= mrv
      invariant from == 0 ==> num < limit
      invariant sorted && !extra ==> (mrv <= c && num == (if mrv <= b then 0 else Min(mrv - b, limit))
                                      && (num > 0 ==> first == mrv - num))
      invariant sorted && extra ==> limit == 2 && c == b + 1 && mrv == c + 1 && first == b && num == 2
    {
      extra := from > h[mrv].timeStamp;
      if upTo >= h[mrv].timeStamp {
        if num < limit {
          if first == -1 {
            first := mrv;
          }
          num := num + 1;
          if from == 0 && num == limit {
            break;
          }
        } else {
          if first == -1 {
            first := mrv;
          } else {
            first := first + 1;
          }
        }
      }
      mrv := mrv + 1;
    }
  }

  /** The copy loop never runs off the list. */
  method CopyBlock(h: Values, first: int, num: int) returns (mv: Values)
    requires 0 <= num && (num > 0 ==> 0 <= first && first + num <= |h|)
    ensures mv == if num > 0 then h[first..first + num] else []
  {
    var j, mrv := 0, first;
    mv := [];
    while j < num
      invariant 0 <= j <= num && mrv == first + j
      invariant mv == if j > 0 then h[first..mrv] else []
    {
      mv := mv + [h[mrv]];
      mrv := mrv + 1;
      j := j + 1;
    }
  }

  lemma SelectedIsExpected(h: Values, from: Time, to: Time, maxnum: int, b: nat, c: nat, first: int, num: int)
    requires var (upTo, limit) := Effective(from, to, maxnum);
      Bounds(h, from, upTo, b, c) && Selects(h, from, limit, b, c, first, num)
    ensures num > 0 ==> 0 <= first && first + num <= |h|
    ensures Expected(h, from, to, maxnum) == if num > 0 then h[first..first + num] else []
  {
    var (upTo, limit) := Effective(from, to, maxnum);
    WindowSlice(h, from, upTo, b, c);
    SelectsLimited(h, from, limit, b, c, first, num);
  }

  lemma ExpectedSorted(h: Values, from: Time, to: Time, maxnum: int)
    requires NewestFirst(h)
    ensures NewestFirst(Expected(h, from, to, maxnum))
  {
    var (upTo, limit) := Effective(from, to, maxnum);
    var b, c := BoundsExist(h, from, upTo);
    var extra := limit == 2 && c == b + 1 && c < |h|;
    var num := if extra then 2 else if c <= b then 0 else Min(c - b, limit);
    SelectedIsExpected(h, from, to, maxnum, b, c, if extra || from == 0 then b else c - num, num);
  }

  /** One resource's share of a retrieval.  The result is a contiguous block of the history even if
      the history is unsorted. */
  method RetrieveOne(h: Values, from: Time, to: Time, maxnum: int) returns (first: int, num: int, mv: Values)
    ensures num == |mv| <= Effective(from, to, maxnum).1
    ensures num > 0 ==> 0 <= first && first + num <= |h| && mv == h[first..first + num]
    ensures NewestFirst(h) ==> mv == Expected(h, from, to, maxnum)
  {
    var (upTo, limit) := Effective(from, to, maxnum);
    ghost var b, c := 0, 0;
    if NewestFirst(h) {
      b, c := BoundsExist(h, from, upTo);
    }
    first, num := SelectBlock(h, from, upTo, limit, b, c);
    mv := CopyBlock(h, first, num);
    if NewestFirst(h) {
      SelectedIsExpected(h, from, to, maxnum, b, c, first, num);
    }
  }

  /** A subscriber is always handed the value just added and, if there is one, its predecessor. */
  lemma CallbackValues(v: MetricValue, h: Values)
    requires NewestFirst([v] + h) && forall k :: 0 <= k < |h| ==> 0 <= h[k].timeStamp
    requires 0 <= v.timeStamp
    ensures Expected([v] + h, 0, v.timeStamp, 2) == if h == [] then [v] else [v, h[0]]
  {
    var s := [v] + h;
    var (upTo, limit) := Effective(0, v.timeStamp, 2);
    assert s[0] == v;
    WindowSlice(s, 0, upTo, 0, |s|);
  }

  // ----- expiry -----

  /** Cuts the history at its first expired value. */
  method PruneHistory(h: Values, cutoff: int) returns (kept: Values, numPruned: nat)
    ensures kept == h[..Boundary(h, cutoff + 1)]
    ensures numPruned == |h| - |kept|
  {
    var v := 0;
    while v < |h| && h[v].timeStamp > cutoff
      invariant 0 <= v <= Boundary(h, cutoff + 1)
    {
      v := v + 1;
    }
    kept, numPruned := h, 0;
    if v < |h| && h[v].timeStamp <= cutoff {
      kept := h[..v];
      while v < |h|
        invariant v <= |h| && numPruned == v - |kept|
      {
        v := v + 1;
        numPruned := numPruned + 1;
      }
    }
  }

  function NewerThan(h: Values, t: int): Values {
    Filter(h, (v: MetricValue) => v.timeStamp > t)
  }

  /** In a newest-first history exactly the expired values go. */
  lemma PruneKeepsUnexpired(h: Values, cutoff: int)
    requires NewestFirst(h)
    ensures h[..Boundary(h, cutoff + 1)] == NewerThan(h, cutoff)
  {
    FilterSlice(h, (v: MetricValue) => v.timeStamp > cutoff, 0, Boundary(h, cutoff + 1));
  }
}
