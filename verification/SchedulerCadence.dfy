/** How often a block is selected, for any number of retrievers and without resets (mlist.c). */
module SchedulerCadence {
  import opened Scheduler
  import opened SchedulerRuns
  import opened SchedulerOrder

  /** The times at which `id` was selected, oldest first. */
  ghost function Times(log: seq<Selection>, id: Id): seq<int> {
    if log == [] then []
    else
      var last := log[|log| - 1];
      Times(log[..|log| - 1], id) + (if last.id == id then [last.at] else [])
  }

  /** Consecutive selections: in different aligned windows, or at least one interval apart. */
  ghost predicate Gap(sync: bool, interval: int, a: int, b: int)
    requires sync ==> interval > 0
  {
    if sync then a / interval < b / interval else b - a >= interval
  }

  ghost predicate Spaced(ts: seq<int>, sync: bool, interval: int)
    requires sync ==> interval > 0
  {
    forall k :: 0 < k < |ts| ==> Gap(sync, interval, ts[k - 1], ts[k])
  }

  ghost predicate Paced(s: Sys, id: Id)
    requires id in s.core.mem && (s.core.sync ==> s.core.mem[id].interval > 0)
  {
    var b, ts := s.core.mem[id], Times(s.log, id);
    && Spaced(ts, s.core.sync, b.interval)
    && (ts != [] ==> b.state != Created && b.due == NextDue(s.core.sync, ts[|ts| - 1], b.interval))
    && (s.core.sync && b.state != Created ==> b.due % b.interval == 0)
  }

  ghost predicate OnTime(s: Sys) {
    && Owned(s)
    && (forall id :: id in s.core.mem ==> Placed(s, id) && Paced(s, id))
    && NamesBelow(s.log, s.next)
  }

  lemma {:induction false} TimesFresh(log: seq<Selection>, id: Id)
    requires forall k :: 0 <= k < |log| ==> log[k].id < id
    ensures Times(log, id) == []
  {
    if log != [] {
      TimesFresh(log[..|log| - 1], id);
    }
  }

  lemma DivMonotone(x: int, y: int, i: int)
    requires i > 0 && x <= y
    ensures x / i <= y / i
  {
    if x / i > y / i {
      MulMonotone(i, y / i + 1, x / i);
    }
  }

  /** A selection at or after the due time set by the previous one falls in a later window. */
  lemma NextWindow(t: int, i: int, u: int)
    requires i > 0 && u >= t + i - t % i
    ensures u / i > t / i
  {
    assert u == i * (u / i) + u % i && t == i * (t / i) + t % i;
    if u / i <= t / i {
      MulMonotone(i, u / i, t / i);
    }
  }

  lemma AlignedMultiple(t: int, i: int)
    requires i > 0
    ensures (t - t % i + i) % i == 0
  {
    assert t - t % i + i == i * (t / i + 1);
    MultipleMod(i, t / i + 1);
  }

  /** Under synchronisation every due time that is given out is the first multiple of the interval after `t`; otherwise
      a new block is due at once, and a selected one after one interval. */
  lemma DueTimes(t: int, i: int, m: int)
    requires i > 0
    ensures FirstDue(true, t, i) == NextDue(true, t, i) && FirstDue(true, t, i) % i == 0 && t < FirstDue(true, t, i)
    ensures t < m && m % i == 0 ==> FirstDue(true, t, i) <= m
    ensures FirstDue(false, t, i) == 0 && NextDue(false, t, i) == t + i
  {
    AlignedMultiple(t, i);
    if t < m && m % i == 0 {
      LaterMultiple(t, i, m);
    }
  }

  lemma LaterMultiple(t: int, i: int, m: int)
    requires i > 0 && t < m && m % i == 0
    ensures t - t % i + i <= m
  {
    var q, n := t / i, m / i;
    assert t == i * q + t % i && m == i * n;
    if n <= q {
      MulMonotone(i, n, q);
    } else {
      MulMonotone(i, q + 1, n);
      assert i * (q + 1) == i * q + i;
    }
  }

  lemma PacedSame(s: Sys, s': Sys, id: Id)
    requires id in s.core.mem && id in s'.core.mem && s'.log == s.log && s'.core.sync == s.core.sync
    requires (s.core.sync ==> s.core.mem[id].interval > 0) && Paced(s, id)
    requires var b, b' := s.core.mem[id], s'.core.mem[id];
      b'.interval == b.interval && b'.due == b.due && (b'.state == Created <==> b.state == Created)
    ensures Paced(s', id)
  {
  }

  lemma TakenPaced(s: Sys, s': Sys, x: Id, t: int, id: Id)
    requires OnTime(s) && Taken(s.core, s'.core, x, t) && id in s.core.mem && s'.core.sync == s.core.sync
    requires s'.log == s.log + [Selection(x, t)]
    ensures Placed(s, id) && Paced(s', id)
  {
    assert Placed(s, id) && Paced(s, id);
    assert s'.log[..|s.log|] == s.log;
    var b, ts := s.core.mem[id], Times(s.log, id);
    if id == x {
      assert Times(s'.log, id) == ts + [t];
      if s.core.sync {
        AlignedMultiple(t, b.interval);
        if ts != [] {
          NextWindow(ts[|ts| - 1], b.interval, t);
        }
      }
    } else {
      assert Times(s'.log, id) == ts;
    }
  }

  lemma SelectPaced(s: Sys, e: Event, id: Id)
    requires OnTime(s) && e.Select? && Allowed(s, e) && Owned(Apply(s, e)) && id in s.core.mem
    ensures id in Apply(s, e).core.mem && Placed(s, id) && Paced(Apply(s, e), id)
  {
    var s', picked := Apply(s, e), SelectNextDue(s.core, e.t, e.reserve).1;
    SelectChanges(s.core, e.t, e.reserve);
    if picked.Some? {
      TakenPaced(s, s', picked.value, e.t, id);
    } else {
      assert Placed(s, id);
      KeptPaced(s, s', id);
    }
  }

  ghost predicate NamesBelow(log: seq<Selection>, next: Id) {
    forall k :: 0 <= k < |log| ==> log[k].id < next
  }

  lemma SelectLogged(s: Sys, e: Event)
    requires OnTime(s) && e.Select? && Allowed(s, e)
    ensures Apply(s, e).core.mem.Keys == s.core.mem.Keys && Apply(s, e).next == s.next
    ensures NamesBelow(Apply(s, e).log, s.next)
  {
    SelectChanges(s.core, e.t, e.reserve);
  }

  lemma SelectOnTime(s: Sys, e: Event)
    requires OnTime(s) && e.Select? && Allowed(s, e)
    ensures OnTime(Apply(s, e))
  {
    SelectOwned(s, e);
    SelectLogged(s, e);
    var s' := Apply(s, e);
    forall id | id in s'.core.mem ensures Placed(s', id) && Paced(s', id) {
      assert Placed(s', id);
      SelectPaced(s, e, id);
    }
  }

  lemma InsertPaced(s: Sys, s': Sys, x: Id, now: int, id: Id)
    requires OnTime(s) && id in s.core.mem && x in s.core.mem && s.core.mem[x].state == Created
    requires s'.core.sync == s.core.sync && s'.log == s.log
    requires var b := s.core.mem[x];
      s'.core.mem == s.core.mem[x := b.(due := FirstDue(s.core.sync, now, b.interval), state := Ready)]
    ensures Placed(s, id) && Paced(s', id)
  {
    assert Placed(s, id) && Paced(s, id);
    if id != x {
      PacedSame(s, s', id);
    } else if s.core.sync {
      AlignedMultiple(now, s.core.mem[x].interval);
    }
  }

  lemma InsertOnTime(s: Sys, e: Event)
    requires OnTime(s) && e.Insert? && Allowed(s, e)
    ensures OnTime(Apply(s, e))
  {
    InsertOwned(s, e);
    assert Placed(s, e.id);
    RelocateNew(s.core, e.id, e.now);
    var s' := Apply(s, e);
    forall id | id in s'.core.mem ensures Placed(s', id) && Paced(s', id) {
      InsertPaced(s, s', e.id, e.now, id);
    }
  }

  /** A block that keeps interval and due time, and does not return to its creation, stays paced. */
  lemma KeptPaced(s: Sys, s': Sys, id: Id)
    requires OnTime(s) && Owned(s') && id in s.core.mem && id in s'.core.mem
    requires s'.log == s.log && s'.core.sync == s.core.sync
    requires var b, b' := s.core.mem[id], s'.core.mem[id];
      b'.interval == b.interval && b'.due == b.due && (b'.state == Created <==> b.state == Created)
    ensures Placed(s', id) && Paced(s', id)
  {
    assert Placed(s, id) && Paced(s, id) && Placed(s', id);
    PacedSame(s, s', id);
  }

  lemma FinishOnTime(s: Sys, e: Event)
    requires OnTime(s) && e.Finish? && Allowed(s, e)
    ensures OnTime(Apply(s, e))
  {
    FinishOwned(s, e);
    var x := s.held[e.r];
    assert Held(s, x) && Placed(s, x);
    if s.core.mem[x].state == InProgress {
      RelocateBusy(s.core, x, e.now);
    }
    var s' := Apply(s, e);
    forall id | id in s'.core.mem ensures Placed(s', id) && Paced(s', id) {
      KeptPaced(s, s', id);
    }
  }

  lemma RemoveOnTime(s: Sys, e: Event)
    requires OnTime(s) && e.Remove_? && Allowed(s, e)
    ensures OnTime(Apply(s, e))
  {
    RemoveOwned(s, e);
    var n := MetricIndex(s.core, e.metricId, 0);
    if n < |s.core.list| {
      RemoveListed(s.core, e.metricId, n);
    }
    var s' := Apply(s, e);
    forall id | id in s'.core.mem ensures Placed(s', id) && Paced(s', id) {
      KeptPaced(s, s', id);
    }
  }

  lemma MakeOnTime(s: Sys, e: Event)
    requires OnTime(s) && e.Make? && Allowed(s, e)
    ensures OnTime(Apply(s, e))
  {
    MakeOwned(s, e);
    var s' := Apply(s, e);
    TimesFresh(s.log, s.next);
    forall id | id in s'.core.mem ensures Placed(s', id) && Paced(s', id) {
      if id in s.core.mem {
        KeptPaced(s, s', id);
      } else {
        assert Placed(s', id);
      }
    }
  }

  /** In every state of a run without resets, the selections of every living block are properly spaced, and under
      synchronisation its due time is a multiple of its interval. */
  lemma {:induction false} RunOnTime(ss: seq<Sys>, es: seq<Event>, n: nat)
    requires Run(ss, es) && n <= |es|
    requires forall i :: 0 <= i < |es| ==> !es[i].Reset_?
    ensures OnTime(ss[n])
  {
    if n == 0 {
      StartOwned(ss[0].core.sync);
    } else {
      RunOnTime(ss, es, n - 1);
      var s, e := ss[n - 1], es[n - 1];
      assert Follows(s, e, ss[n]);
      match e
      case Make(_, _, _) => MakeOnTime(s, e);
      case Insert(_, _) => InsertOnTime(s, e);
      case Select(_, _, _) => SelectOnTime(s, e);
      case Finish(_, _) => FinishOnTime(s, e);
      case Remove_(_) => RemoveOnTime(s, e);
    }
  }

  // ----- how many selections fit into a period -----

  function Within(ts: seq<int>, from: int, to: int): nat {
    if ts == [] then 0 else Within(ts[..|ts| - 1], from, to) + (if from <= ts[|ts| - 1] <= to then 1 else 0)
  }

  lemma {:induction false} WindowsCounted(ts: seq<int>, i: int, from: int, to: int)
    requires i > 0 && from <= to && ts != [] && Spaced(ts, true, i)
    ensures var last := ts[|ts| - 1];
      Within(ts, from, to) <= if last < from then 0 else (if last <= to then last else to) / i - from / i + 1
  {
    var n, last := |ts| - 1, ts[|ts| - 1];
    DivMonotone(from, to, i);
    if last >= from {
      DivMonotone(from, last, i);
    }
    if n > 0 {
      var prev := ts[n - 1];
      assert Gap(true, i, prev, last);
      WindowsCounted(ts[..n], i, from, to);
      if prev >= last {
        DivMonotone(last, prev, i);
      }
      if to <= last {
        DivMonotone(to, last, i);
      }
      if prev <= to {
        DivMonotone(prev, to, i);
      }
    }
  }

  lemma {:induction false} IntervalsCounted(ts: seq<int>, i: int, from: int, to: int)
    requires i > 0 && from <= to && ts != [] && Spaced(ts, false, i)
    ensures var last := ts[|ts| - 1];
      Within(ts, from, to) > 0 ==>
        last >= from && i * (Within(ts, from, to) - 1) <= (if last <= to then last else to) - from
  {
    var n := |ts| - 1;
    if n > 0 {
      assert Gap(false, i, ts[n - 1], ts[n]);
      IntervalsCounted(ts[..n], i, from, to);
      OneMoreInterval(i, Within(ts[..n], from, to));
    }
  }

  lemma OneMoreInterval(i: int, k: nat)
    ensures i * k == i * (k - 1) + i && (k == 0 ==> i * k == 0)
  {
  }

  /** At most so many selections of a block with this interval fit between `from` and `to`. */
  ghost predicate Few(k: nat, sync: bool, interval: int, from: int, to: int)
    requires sync ==> interval > 0
  {
    if sync then k <= to / interval - from / interval + 1 else k > 0 ==> interval * (k - 1) <= to - from
  }

  lemma SpacedFew(ts: seq<int>, sync: bool, i: int, from: int, to: int)
    requires (sync ==> i > 0) && Spaced(ts, sync, i) && from <= to
    ensures Few(Within(ts, from, to), sync, i, from, to)
  {
    if sync {
      DivMonotone(from, to, i);
      if ts != [] {
        WindowsCounted(ts, i, from, to);
        if ts[|ts| - 1] <= to {
          DivMonotone(ts[|ts| - 1], to, i);
        }
      }
    } else if i > 0 {
      if ts != [] {
        IntervalsCounted(ts, i, from, to);
      }
    } else {
      NoIntervalBound(i, Within(ts, from, to));
    }
  }

  /** Event `k` of a run makes block `id` with this interval. */
  ghost predicate Makes(ss: seq<Sys>, es: seq<Event>, k: nat, id: Id, interval: int) {
    && k < |es| < |ss| && es[k].Make? && es[k].metricId != 0
    && ss[k].next == id && es[k].interval == interval
  }

  /** A block keeps its interval as long as it is allocated, and its selections are over when it is not. */
  ghost predicate Lasting(s: Sys, id: Id, sync: bool, interval: int)
    requires sync ==> interval > 0
  {
    && s.core.sync == sync && id < s.next
    && (id in s.core.mem ==> s.core.mem[id].interval == interval)
    && Spaced(Times(s.log, id), sync, interval)
  }

  ghost predicate TimedStep(s: Sys, e: Event, s': Sys) {
    OnTime(s) && Allowed(s, e) && s' == Apply(s, e) && OnTime(s')
  }

  lemma RunTimed(ss: seq<Sys>, es: seq<Event>, n: nat)
    requires Run(ss, es) && n < |es|
    requires forall i :: 0 <= i < |es| ==> !es[i].Reset_?
    ensures TimedStep(ss[n], es[n], ss[n + 1])
  {
    RunOnTime(ss, es, n);
    RunOnTime(ss, es, n + 1);
    assert Follows(ss[n], es[n], ss[n + 1]);
  }

  lemma StepLasts(s: Sys, e: Event, s': Sys, id: Id, sync: bool, interval: int)
    requires TimedStep(s, e, s') && (sync ==> interval > 0) && Lasting(s, id, sync, interval)
    ensures Lasting(s', id, sync, interval)
  {
    StepKeeps(s, e, id);
    if id in s'.core.mem {
      assert Paced(s', id);
    }
  }

  /** One step of a run: intervals stay, and only an allocated block is selected. */
  lemma StepKeeps(s: Sys, e: Event, id: Id)
    requires Owned(s) && Allowed(s, e) && id < s.next
    ensures var s' := Apply(s, e);
      && s'.core.sync == s.core.sync && id < s'.next
      && (id in s'.core.mem ==> id in s.core.mem && s'.core.mem[id].interval == s.core.mem[id].interval)
      && (id !in s'.core.mem ==> Times(s'.log, id) == Times(s.log, id))
  {
    match e
    case Make(_, _, _) =>
    case Insert(x, now) =>
      assert Placed(s, x);
      RelocateNew(s.core, x, now);
    case Select(_, t, reserve) => SelectKeeps(s, e, id);
    case Finish(r, now) =>
      assert Held(s, s.held[r]) && Placed(s, s.held[r]);
      if s.core.mem[s.held[r]].state == InProgress {
        RelocateBusy(s.core, s.held[r], now);
      }
    case Remove_(metricId) =>
      var n := MetricIndex(s.core, metricId, 0);
      if n < |s.core.list| {
        RemoveListed(s.core, metricId, n);
      }
    case Reset_(_) =>
  }

  lemma SelectKeeps(s: Sys, e: Event, id: Id)
    requires Owned(s) && e.Select? && Allowed(s, e)
    ensures var s' := Apply(s, e);
      && s'.core.sync == s.core.sync && s'.next == s.next && s'.core.mem.Keys == s.core.mem.Keys
      && (id in s.core.mem ==> s'.core.mem[id].interval == s.core.mem[id].interval)
      && (id !in s.core.mem ==> Times(s'.log, id) == Times(s.log, id))
  {
    SelectChanges(s.core, e.t, e.reserve);
    var picked := SelectNextDue(s.core, e.t, e.reserve).1;
    if picked.Some? {
      assert (s.log + [Selection(picked.value, e.t)])[..|s.log|] == s.log;
    }
  }

  lemma MadeLasts(s: Sys, e: Event, s': Sys)
    requires TimedStep(s, e, s') && e.Make? && e.metricId != 0
    ensures (s.core.sync ==> e.interval > 0) && Lasting(s', s.next, s.core.sync, e.interval)
  {
    TimesFresh(s.log, s.next);
  }

  lemma FirstLasts(ss: seq<Sys>, es: seq<Event>, k: nat, id: Id, interval: int)
    requires Run(ss, es) && Makes(ss, es, k, id, interval)
    requires forall i :: 0 <= i < |es| ==> !es[i].Reset_?
    ensures (ss[k].core.sync ==> interval > 0) && Lasting(ss[k + 1], id, ss[k].core.sync, interval)
  {
    RunTimed(ss, es, k);
    MadeLasts(ss[k], es[k], ss[k + 1]);
  }

  lemma NextLasts(ss: seq<Sys>, es: seq<Event>, n: nat, id: Id, sync: bool, interval: int)
    requires Run(ss, es) && n < |es| && (sync ==> interval > 0) && Lasting(ss[n], id, sync, interval)
    requires forall i :: 0 <= i < |es| ==> !es[i].Reset_?
    ensures Lasting(ss[n + 1], id, sync, interval)
  {
    RunTimed(ss, es, n);
    StepLasts(ss[n], es[n], ss[n + 1], id, sync, interval);
  }

  /** Over a run without resets, whether or not the block is still there. */
  lemma {:induction false} RunLasts(ss: seq<Sys>, es: seq<Event>, k: nat, n: nat, id: Id, interval: int)
    returns (sync: bool)
    requires Run(ss, es) && k < n <= |es| && Makes(ss, es, k, id, interval)
    requires forall i :: 0 <= i < |es| ==> !es[i].Reset_?
    ensures (sync ==> interval > 0) && Lasting(ss[n], id, sync, interval)
    decreases n
  {
    if n == k + 1 {
      sync := ss[k].core.sync;
      FirstLasts(ss, es, k, id, interval);
    } else {
      sync := RunLasts(ss, es, k, n - 1, id, interval);
      NextLasts(ss, es, n - 1, id, sync, interval);
    }
  }

  /** The bound on the number of selections between `from` and `to`, for every block a run without resets has made,
      and at every time after that. */
  lemma SelectionsBounded(ss: seq<Sys>, es: seq<Event>, k: nat, n: nat, id: Id, interval: int, from: int, to: int)
    requires Run(ss, es) && k < n <= |es| && Makes(ss, es, k, id, interval) && from <= to
    requires forall i :: 0 <= i < |es| ==> !es[i].Reset_?
    ensures ss[n].core.sync ==> interval > 0
    ensures Few(Within(Times(ss[n].log, id), from, to), ss[n].core.sync, interval, from, to)
  {
    var sync := RunLasts(ss, es, k, n, id, interval);
    SpacedFew(Times(ss[n].log, id), sync, interval, from, to);
  }

  /** Without a positive interval the bound says nothing. */
  lemma NoIntervalBound(i: int, k: nat)
    requires i <= 0
    ensures k > 0 ==> i * (k - 1) <= 0
  {
    if k > 0 {
      MulMonotone(-i, 0, k - 1);
      assert -i * (k - 1) == -(i * (k - 1));
    }
  }
}
