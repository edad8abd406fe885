/** With one retriever the list stays sorted by due time, and selection picks a block of least due time (mlist.c). */
module SchedulerOrder {
  import opened Scheduler
  import opened SchedulerRuns

  /** A block that is not being sampled is due no later than any block after it. */
  ghost predicate Ordered(list: seq<Id>, mem: map<Id, Block>)
    requires forall x :: x in list ==> x in mem
  {
    forall i, j :: 0 <= i < j < |list| && mem[list[i]].state != InProgress ==> mem[list[i]].due <= mem[list[j]].due
  }

  /** Each listed interval divides every later one. */
  ghost predicate Dividing(c: Core)
    requires c.WellFormed()
  {
    forall i, j :: 0 <= i < j < |c.list| && c.At(i).interval > 0 ==> c.At(j).interval % c.At(i).interval == 0
  }

  /** From position `from` on, no busy block that is due later than `due` stands before a block that is due earlier. */
  ghost predicate Unobstructed(list: seq<Id>, mem: map<Id, Block>, from: nat, due: int)
    requires forall x :: x in list ==> x in mem
  {
    forall i, j :: from <= i < j < |list| && mem[list[i]].state == InProgress && mem[list[i]].due > due ==>
      mem[list[j]].due >= due
  }

  /** The calls of a single retriever, numbered 0, on a clock that does not show negative times, with intervals that are
      not negative.  Under wallclock synchronisation a new block must be unobstructed, and a reset needs dividing
      intervals. */
  ghost predicate Solo(s: Sys, e: Event)
    requires Owned(s)
  {
    && Allowed(s, e)
    && match e
       case Make(_, interval, _) => interval >= 0
       case Insert(id, now) =>
         assert Placed(s, id);
         && now >= 0
         && (s.core.sync ==>
               Unobstructed(s.core.list, s.core.mem, 0, FirstDue(true, now, s.core.mem[id].interval)))
       case Select(r, t, _) => r == 0 && t >= 0
       case Reset_(t) => t >= 0 && (s.core.sync ==> Dividing(s.core))
       case _ => true
  }

  ghost predicate InOrder(s: Sys) {
    && Owned(s) && Ordered(s.core.list, s.core.mem)
    && Nonnegative(s.core)
    && (forall r :: r in s.held ==> r == 0)
  }

  ghost predicate Nonnegative(c: Core) {
    && (forall x :: x in c.list && x in c.mem ==> c.mem[x].due >= 0)
    && (forall x :: x in c.mem ==> c.mem[x].interval >= 0)
  }

  lemma FreeMeansIdle(s: Sys)
    requires InOrder(s) && 0 !in s.held
    ensures Idle(s.core) && forall x :: x in s.core.list ==> Waiting(s.core.mem[x])
  {
    forall x | x in s.core.list ensures Waiting(s.core.mem[x]) {
      assert Placed(s, x) && !Held(s, x);
    }
  }

  /** What the end of a scan says of a listed block. */
  ghost predicate Least(c: Core, p: Pick, t: int, x: Id)
    requires c.WellFormed() && x in c.list && (!p.Nothing? ==> p.i < |c.list|)
  {
    match p
    case Due(i) => i == 0 && c.At(0).due <= t && c.At(0).due <= c.mem[x].due
    case Later(i) => c.At(i).state == Ready && c.mem[x].due > t
      && (c.mem[x].state == Ready ==> c.At(i).due <= c.mem[x].due)
    case Nothing => c.mem[x].due > t && c.mem[x].state != Ready
  }

  lemma ScanLeast(c: Core, t: int, x: Id)
    requires c.WellFormed() && Ordered(c.list, c.mem) && (forall y :: y in c.list ==> Waiting(c.mem[y])) && x in c.list
    ensures Least(c, Scan(c, t, 0), t, x)
  {
    var k :| 0 <= k < |c.list| && c.list[k] == x;
    assert c.At(k) == c.mem[x];
    match Scan(c, t, 0)
    case Due(i) =>
      assert c.list[0] in c.list;
    case Later(i) =>
      assert c.list[i] in c.list;
    case Nothing =>
  }

  /** What the single retriever gets: the head of the list if it is due, else the time to sleep until. */
  lemma SelectLeast(s: Sys, t: int, reserve: bool)
    requires InOrder(s) && 0 !in s.held && t >= 0
    ensures var (d, picked, next) := SelectNextDue(s.core, t, reserve); var m := s.core.mem;
      && (picked.Some? <==> exists x :: x in s.core.list && m[x].due <= t)
      && (picked.Some? ==> s.core.list != [] && picked.value == s.core.list[0] && next == t)
      && (picked.Some? ==> forall x :: x in s.core.list ==> m[picked.value].due <= m[x].due)
      && (picked.None? ==> forall x :: x in s.core.list ==> m[x].due > t)
      && (picked.None? && next >= 0 ==> exists x :: x in s.core.list && m[x].state == Ready && m[x].due == next)
      && (picked.None? && next >= 0 ==> forall x :: x in s.core.list && m[x].state == Ready ==> next <= m[x].due)
      && (picked.None? && next < 0 ==> forall x :: x in s.core.list ==> m[x].state != Ready)
  {
    FreeMeansIdle(s);
    forall x | x in s.core.list
      ensures Least(s.core, Scan(s.core, t, 0), t, x)
    {
      ScanLeast(s.core, t, x);
    }
  }

  /** With nothing due yet and some block READY, the retriever is told a time; it suits every block exactly if each
      block it has reserved before has a READY block that is due no later. */
  lemma SleepTimeIff(s: Sys, t: int, reserve: bool)
    requires InOrder(s) && 0 !in s.held && t >= 0
    requires forall x :: x in s.core.list ==> s.core.mem[x].due > t
    requires exists x :: x in s.core.list && s.core.mem[x].state == Ready
    ensures var (_, picked, next) := SelectNextDue(s.core, t, reserve); var m := s.core.mem;
      && picked.None? && next > t
      && ((forall x :: x in s.core.list ==> next <= m[x].due)
          <==> forall x :: x in s.core.list && m[x].state == Reserved ==> ReadyBy(s.core, m[x].due))
  {
    SelectLeast(s, t, reserve);
    FreeMeansIdle(s);
  }

  ghost predicate ReadyBy(c: Core, due: int)
    requires c.WellFormed()
  {
    exists y :: y in c.list && c.mem[y].state == Ready && c.mem[y].due <= due
  }

  // ----- every operation keeps the order -----

  lemma PlaceOrdered(list: seq<Id>, mem: map<Id, Block>, n: nat, id: Id, b: Block)
    requires id !in list && n <= |list| && (forall x :: x in list ==> x in mem) && Ordered(list, mem)
    requires forall k :: 0 <= k < n ==> mem[list[k]].due <= b.due || mem[list[k]].state == InProgress
    requires forall k :: n <= k < |list| ==> b.due <= mem[list[k]].due
    ensures forall x :: x in Inserted(list, n, id) ==> x in mem[id := b]
    ensures Ordered(Inserted(list, n, id), mem[id := b])
  {
    var l, m := Inserted(list, n, id), mem[id := b];
    forall k | 0 <= k < |l|
      ensures l[k] in m && m[l[k]] == if k == n then b else mem[list[if k < n then k else k - 1]] {
      if k != n {
        assert l[k] == list[if k < n then k else k - 1] && l[k] in list;
      }
    }
  }

  lemma WithoutOrdered(list: seq<Id>, mem: map<Id, Block>, p: nat)
    requires p < |list| && (forall x :: x in list ==> x in mem) && Ordered(list, mem)
    ensures forall x :: x in Without(list, p) ==> x in mem
    ensures Ordered(Without(list, p), mem)
  {
    var l := Without(list, p);
    assert forall k :: 0 <= k < |l| ==> l[k] == list[if k < p then k else k + 1];
    forall i, j | 0 <= i < j < |l| && mem[l[i]].state != InProgress ensures mem[l[i]].due <= mem[l[j]].due {
      assert l[i] == list[if i < p then i else i + 1] && l[j] == list[if j < p then j else j + 1];
    }
  }

  /** Ordering and non-negative due times depend only on the listed blocks. */
  lemma OrderedSame(list: seq<Id>, m: map<Id, Block>, n: map<Id, Block>)
    requires (forall x :: x in list ==> x in m && x in n && n[x] == m[x]) && Ordered(list, m)
    ensures Ordered(list, n)
  {
    assert forall k :: 0 <= k < |list| ==> list[k] in list;
  }

  lemma InsertWhere(s: Sys, e: Event) returns (n: nat, b: Block)
    requires InOrder(s) && e.Insert? && Allowed(s, e)
    ensures Owned(Apply(s, e)) && e.id !in s.core.list && b.state == Ready
    ensures s.core.mem[e.id].interval == b.interval && (s.core.sync ==> b.interval > 0)
    ensures b.due == FirstDue(s.core.sync, e.now, s.core.mem[e.id].interval)
    ensures n == Slot(s.core.list, s.core.mem, b.due, 0)
    ensures Apply(s, e) == s.(core := Core(s.core.sync, Inserted(s.core.list, n, e.id), s.core.mem[e.id := b]))
    ensures forall x :: x in Inserted(s.core.list, n, e.id) <==> x == e.id || x in s.core.list
  {
    assert Placed(s, e.id);
    InsertOwned(s, e);
    b := s.core.mem[e.id].(due := FirstDue(s.core.sync, e.now, s.core.mem[e.id].interval), state := Ready);
    n := Slot(s.core.list, s.core.mem, b.due, 0);
    InsertedIn(s.core.list, n, e.id);
  }

  /** If nothing obstructs, the slot found from position `p` on is the right one. */
  lemma SlotSplits(rest: seq<Id>, mem: map<Id, Block>, p: nat, due: int, n: nat)
    requires p <= |rest| && (forall y :: y in rest ==> y in mem) && Ordered(rest, mem)
    requires Unobstructed(rest, mem, p, due)
    requires forall k :: 0 <= k < p && mem[rest[k]].state != InProgress ==> mem[rest[k]].due <= due
    requires n == Slot(rest, mem, due, p)
    ensures forall k :: 0 <= k < n ==> mem[rest[k]].due <= due || mem[rest[k]].state == InProgress
    ensures forall k :: n <= k < |rest| ==> due <= mem[rest[k]].due
  {
  }

  /** If something obstructs, a block behind that slot is due earlier. */
  lemma SlotBlocked(rest: seq<Id>, mem: map<Id, Block>, p: nat, due: int, n: nat) returns (j: nat)
    requires p <= |rest| && (forall y :: y in rest ==> y in mem) && !Unobstructed(rest, mem, p, due)
    requires n == Slot(rest, mem, due, p)
    ensures n <= j < |rest| && rest[j] in rest && mem[rest[j]].due < due
  {
    var i, k :| p <= i < k < |rest| && mem[rest[i]].state == InProgress && mem[rest[i]].due > due
      && mem[rest[k]].due < due;
    j := k;
  }

  /** The exact condition under which an insertion keeps the order. */
  lemma InsertInOrderIff(s: Sys, e: Event)
    requires InOrder(s) && e.Insert? && Allowed(s, e) && e.now >= 0
    ensures Placed(s, e.id)
    ensures InOrder(Apply(s, e)) <==>
      Unobstructed(s.core.list, s.core.mem, 0, FirstDue(s.core.sync, e.now, s.core.mem[e.id].interval))
  {
    var c := s.core;
    var n, b := InsertWhere(s, e);
    if Unobstructed(c.list, c.mem, 0, b.due) {
      SlotSplits(c.list, c.mem, 0, b.due, n);
      PlaceOrdered(c.list, c.mem, n, e.id, b);
    } else {
      var j := SlotBlocked(c.list, c.mem, 0, b.due, n);
      Obstructed(c.list, c.mem[e.id := b], n, e.id, j);
    }
  }

  lemma Obstructed(list: seq<Id>, mem: map<Id, Block>, n: nat, id: Id, j: nat)
    requires id !in list && n <= j < |list| && id in mem && mem[id].state == Ready
    requires forall x :: x in Inserted(list, n, id) ==> x in mem
    requires list[j] in mem && mem[list[j]].due < mem[id].due
    ensures !Ordered(Inserted(list, n, id), mem)
  {
    var l := Inserted(list, n, id);
    assert l[n] == id && l[j + 1] == list[j];
  }

  /** Without synchronisation nothing obstructs, since a new block is due at 0. */
  lemma AsapUnobstructed(s: Sys)
    requires InOrder(s)
    ensures Unobstructed(s.core.list, s.core.mem, 0, 0)
  {
    assert forall k :: 0 <= k < |s.core.list| ==> s.core.list[k] in s.core.list;
  }

  lemma InsertInOrder(s: Sys, e: Event)
    requires InOrder(s) && e.Insert? && Solo(s, e)
    ensures InOrder(Apply(s, e))
  {
    AsapUnobstructed(s);
    InsertInOrderIff(s, e);
  }

  lemma WithoutAt(list: seq<Id>, p: nat, k: nat)
    requires k < |list| - 1 && p < |list|
    ensures |Without(list, p)| == |list| - 1 && Without(list, p)[k] == list[if k < p then k else k + 1]
  {
  }

  lemma UnobstructedWithout(list: seq<Id>, mem: map<Id, Block>, p: nat, due: int)
    requires p < |list| && forall x :: x in list ==> x in mem
    requires forall x :: x in Without(list, p) ==> x in mem
    ensures Unobstructed(Without(list, p), mem, p, due) <==> Unobstructed(list, mem, p + 1, due)
  {
    var rest := Without(list, p);
    if Unobstructed(list, mem, p + 1, due) {
      forall i, j | p <= i < j < |rest| && mem[rest[i]].state == InProgress && mem[rest[i]].due > due
        ensures mem[rest[j]].due >= due
      {
        WithoutAt(list, p, i);
        WithoutAt(list, p, j);
      }
    }
    if Unobstructed(rest, mem, p, due) {
      forall i, j | p < i < j < |list| && mem[list[i]].state == InProgress && mem[list[i]].due > due
        ensures mem[list[j]].due >= due
      {
        WithoutAt(list, p, i - 1);
        WithoutAt(list, p, j - 1);
      }
    }
  }

  /** The elements before the old place of a block stay where they are, and none that waits is due later. */
  lemma BeforeOldPlace(list: seq<Id>, mem: map<Id, Block>, p: nat)
    requires p < |list| && (forall y :: y in list ==> y in mem) && Ordered(list, mem)
    requires forall x :: x in Without(list, p) ==> x in mem
    ensures var rest := Without(list, p);
      forall k :: 0 <= k < p && mem[rest[k]].state != InProgress ==> mem[rest[k]].due <= mem[list[p]].due
  {
    forall k | 0 <= k < p ensures Without(list, p)[k] == list[k] {
      WithoutAt(list, p, k);
    }
  }

  lemma MovedOrderedIff(list: seq<Id>, mem: map<Id, Block>, p: nat, b: Block)
    requires p < |list| && Distinct(list) && (forall y :: y in list ==> y in mem) && Ordered(list, mem)
    requires b.due == mem[list[p]].due && b.state == Ready
    ensures forall y :: y in Moved(list, mem, b.due, p) ==> y in mem[list[p] := b]
    ensures Ordered(Moved(list, mem, b.due, p), mem[list[p] := b]) <==> Unobstructed(list, mem, p + 1, b.due)
  {
    WithoutIn(list, p);
    WithoutOrdered(list, mem, p);
    MovedIn(list, mem, b.due, p);
    UnobstructedWithout(list, mem, p, b.due);
    var rest := Without(list, p);
    var n := Slot(rest, mem, b.due, p);
    if Unobstructed(rest, mem, p, b.due) {
      BeforeOldPlace(list, mem, p);
      SlotSplits(rest, mem, p, b.due, n);
      PlaceOrdered(rest, mem, n, list[p], b);
    } else {
      var j := SlotBlocked(rest, mem, p, b.due, n);
      Obstructed(rest, mem[list[p] := b], n, list[p], j);
    }
  }

  lemma RelocateIs(c: Core, x: Id, now: int) returns (p: nat, b: Block)
    requires c.WellFormed() && x in c.list && c.mem[x].state == InProgress
    ensures p == IndexOf(c.list, x) < |c.list| && c.list[p] == x && b == c.mem[x].(state := Ready)
    ensures Relocate(c, x, now).0 == Core(c.sync, Moved(c.list, c.mem, b.due, p), c.mem[x := b])
  {
    ListedIndex(c.list, x);
    p, b := IndexOf(c.list, x), c.mem[x].(state := Ready);
  }

  ghost predicate InListOrder(c: Core) {
    (forall y :: y in c.list ==> y in c.mem) && Ordered(c.list, c.mem)
  }

  /** The exact condition under which the relocation of a sampled block, found at position `p`, keeps the list sorted,
      for any number of blocks in progress. */
  lemma RelocatedInOrderIff(c: Core, x: Id, now: int) returns (p: nat)
    requires c.WellFormed() && Ordered(c.list, c.mem) && x in c.list && c.mem[x].state == InProgress
    ensures p < |c.list| && c.list[p] == x
    ensures InListOrder(Relocate(c, x, now).0) <==> Unobstructed(c.list, c.mem, p + 1, c.mem[x].due)
  {
    var b;
    p, b := RelocateIs(c, x, now);
    MovedOrderedIff(c.list, c.mem, p, b);
  }

  /** In particular, moving the only busy block keeps it sorted. */
  lemma BusyMoved(c: Core, x: Id, now: int)
    requires c.WellFormed() && Ordered(c.list, c.mem) && x in c.list && c.mem[x].state == InProgress
    requires forall y :: y in c.list && y != x ==> Waiting(c.mem[y])
    ensures InListOrder(Relocate(c, x, now).0)
  {
    var p := RelocatedInOrderIff(c, x, now);
    assert forall k :: p < k < |c.list| ==> c.list[k] in c.list && c.list[k] != x;
  }

  lemma FinishInOrder(s: Sys, e: Event)
    requires InOrder(s) && e.Finish? && Solo(s, e)
    ensures InOrder(Apply(s, e))
  {
    FinishOwned(s, e);
    var c, x := s.core, s.held[e.r];
    assert Held(s, x) && Placed(s, x);
    if c.mem[x].state == InProgress {
      RelocateBusy(c, x, e.now);
      OthersWait(s, x);
      BusyMoved(c, x, e.now);
    } else {
      OrderedSame(c.list, c.mem, c.mem - {x});
    }
  }

  lemma OthersWait(s: Sys, x: Id)
    requires InOrder(s) && 0 in s.held && s.held[0] == x
    ensures forall y :: y in s.core.list && y != x ==> Waiting(s.core.mem[y])
  {
    forall y | y in s.core.list && y != x ensures Waiting(s.core.mem[y]) {
      assert Placed(s, y) && !Held(s, y);
    }
  }

  lemma TakenOrdered(c: Core, d: Core, x: Id, t: int)
    requires c.WellFormed() && d.WellFormed() && d.list == c.list && Taken(c, d, x, t)
    requires Ordered(c.list, c.mem) && c.list[0] == x
    ensures Ordered(d.list, d.mem)
  {
    assert forall k :: 0 < k < |c.list| ==> c.list[k] != x;
  }

  lemma PassedOrdered(c: Core, d: Core)
    requires c.WellFormed() && d.WellFormed() && d.list == c.list && Passed(c, d) && Ordered(c.list, c.mem)
    ensures Ordered(d.list, d.mem) && forall y :: y in c.list ==> d.mem[y].due == c.mem[y].due
  {
    assert forall k :: 0 <= k < |c.list| ==> c.list[k] in c.list;
    assert forall y :: y in c.list ==> (c.mem[y].state == InProgress <==> d.mem[y].state == InProgress);
  }

  lemma PickedInOrder(s: Sys, s': Sys, x: Id, t: int)
    requires InOrder(s) && t >= 0 && s.core.list != [] && x == s.core.list[0] && Taken(s.core, s'.core, x, t)
    requires Owned(s') && s'.core.list == s.core.list && s'.core.sync == s.core.sync
    requires forall r :: r in s'.held ==> r == 0
    ensures InOrder(s')
  {
    assert Placed(s, x);
    TakenOrdered(s.core, s'.core, x, t);
  }

  lemma PassedInOrder(s: Sys, s': Sys)
    requires InOrder(s) && Passed(s.core, s'.core)
    requires Owned(s') && s'.core.list == s.core.list && s'.held == s.held
    ensures InOrder(s')
  {
    PassedOrdered(s.core, s'.core);
  }

  lemma SelectInOrder(s: Sys, e: Event)
    requires InOrder(s) && e.Select? && Solo(s, e)
    ensures InOrder(Apply(s, e))
  {
    SelectOwned(s, e);
    SelectLeast(s, e.t, e.reserve);
    SelectChanges(s.core, e.t, e.reserve);
    var picked := SelectNextDue(s.core, e.t, e.reserve).1;
    if picked.Some? {
      PickedInOrder(s, Apply(s, e), picked.value, e.t);
    } else {
      PassedInOrder(s, Apply(s, e));
    }
  }

  lemma RemovedOrdered(c: Core, metricId: int)
    requires c.WellFormed() && Ordered(c.list, c.mem)
    ensures Remove(c, metricId).WellFormed() && Ordered(Remove(c, metricId).list, Remove(c, metricId).mem)
  {
    var n := MetricIndex(c, metricId, 0);
    if n < |c.list| {
      RemoveListed(c, metricId, n);
      WithoutOrdered(c.list, c.mem, n);
      OrderedSame(Remove(c, metricId).list, c.mem, Remove(c, metricId).mem);
    }
  }

  lemma RemovedNonnegative(c: Core, metricId: int)
    requires c.WellFormed() && Nonnegative(c)
    ensures Nonnegative(Remove(c, metricId))
  {
    var n := MetricIndex(c, metricId, 0);
    if n < |c.list| {
      RemoveListed(c, metricId, n);
    }
  }

  lemma RemoveInOrder(s: Sys, e: Event)
    requires InOrder(s) && e.Remove_? && Solo(s, e)
    ensures InOrder(Apply(s, e))
  {
    RemoveOwned(s, e);
    RemovedOrdered(s.core, e.metricId);
    RemovedNonnegative(s.core, e.metricId);
  }

  lemma {:induction false} MulMonotone(a: int, x: int, y: int)
    requires a >= 0 && x <= y
    ensures a * x <= a * y
    decreases y - x
  {
    if x < y {
      MulMonotone(a, x, y - 1);
      assert a * y == a * (y - 1) + a;
    }
  }

  lemma SmallMultiple(a: int, d: int)
    requires a > 0 && -a < a * d < a
    ensures d == 0
  {
    if d >= 1 {
      MulMonotone(a, 1, d);
    } else if d <= -1 {
      MulMonotone(a, d, -1);
    }
  }

  lemma MultipleMod(a: int, k: int)
    requires a > 0
    ensures (a * k) % a == 0
  {
    var q, r := a * k / a, (a * k) % a;
    assert a * k == a * q + r;
    assert a * (k - q) == r;
    SmallMultiple(a, k - q);
  }

  lemma NextMultiple(a: int, n: int, x: int)
    requires a > 0 && a * n < a * x
    ensures a * n + a <= a * x
  {
    if x <= n {
      MulMonotone(a, x, n);
    } else {
      MulMonotone(a, n + 1, x);
      assert a * (n + 1) == a * n + a;
    }
  }

  /** The next multiple of `a` after `t` comes no later than the next multiple of `b`, if `a` divides `b`. */
  lemma DividingAligned(t: int, a: int, b: int)
    requires t >= 0 && a > 0 && b > 0 && b % a == 0
    ensures t - t % a + a <= t - t % b + b
  {
    var m, q, n := b / a, t / b, t / a;
    var x := m * (q + 1);
    assert b * (q + 1) == a * x by {
      assert b == a * m;
    }
    assert t == a * n + t % a && t == b * q + t % b;
    assert b * (q + 1) == b * q + b;
    NextMultiple(a, n, x);
  }

  lemma AlignedDivides(a: int, b: int)
    requires a > 0 && b > 0 && (b - 1) - (b - 1) % a + a <= (b - 1) - (b - 1) % b + b
    ensures b % a == 0
  {
    assert (b - 1) % b == b - 1;
    var k := (b - 1) / a;
    assert b - 1 == a * k + (b - 1) % a;
    assert b == a * (k + 1);
    MultipleMod(a, k + 1);
  }

  lemma ResetDue(s: Sys, t: int, i: nat)
    requires Owned(s) && i < |s.core.list|
    ensures s.core.list[i] in s.core.mem && (s.core.sync ==> s.core.At(i).interval > 0)
    ensures Reset(s.core, t).mem[s.core.list[i]].due == FirstDue(s.core.sync, t, s.core.At(i).interval)
    ensures Reset(s.core, t).mem[s.core.list[i]].state == Ready
  {
    assert Placed(s, s.core.list[i]);
  }

  lemma DividingReset(s: Sys, t: int)
    requires Owned(s) && s.core.sync && t >= 0 && Dividing(s.core)
    ensures ResetOrdered(s, t)
  {
    var c, m := s.core, Reset(s.core, t).mem;
    forall i, j | 0 <= i < j < |c.list| ensures m[c.list[i]].due <= m[c.list[j]].due {
      ResetDue(s, t, i);
      ResetDue(s, t, j);
      DividingAligned(t, c.At(i).interval, c.At(j).interval);
    }
  }

  /** A synchronised reset keeps the order whenever it happens, exactly if the listed intervals divide one another. */
  lemma ResetOrderedIff(s: Sys)
    requires Owned(s) && s.core.sync
    ensures (forall t :: t >= 0 ==> ResetOrdered(s, t)) <==> Dividing(s.core)
  {
    var c := s.core;
    if Dividing(c) {
      forall t | t >= 0 ensures ResetOrdered(s, t) {
        DividingReset(s, t);
      }
    } else {
      var i, j :| 0 <= i < j < |c.list| && c.At(i).interval > 0 && c.At(j).interval % c.At(i).interval != 0;
      var t := c.At(j).interval - 1;
      ResetDue(s, t, i);
      ResetDue(s, t, j);
      if ResetOrdered(s, t) {
        AlignedDivides(c.At(i).interval, c.At(j).interval);
      }
      assert t >= 0 && !ResetOrdered(s, t);
    }
  }

  ghost predicate ResetOrdered(s: Sys, t: int)
    requires Owned(s)
  {
    Ordered(s.core.list, Reset(s.core, t).mem)
  }

  lemma ResetInOrder(s: Sys, e: Event)
    requires InOrder(s) && e.Reset_? && Solo(s, e)
    ensures InOrder(Apply(s, e))
  {
    ResetOwnedIff(s, e);
    if s.core.sync {
      ResetOrderedIff(s);
      assert ResetOrdered(s, e.t);
    } else {
      assert forall k :: 0 <= k < |s.core.list| ==> s.core.list[k] in s.core.list;
    }
    forall x | x in s.core.list ensures FirstDue(s.core.sync, e.t, s.core.mem[x].interval) >= 0 {
      assert Placed(s, x);
    }
  }

  lemma MakeInOrder(s: Sys, e: Event)
    requires InOrder(s) && e.Make? && Solo(s, e)
    ensures InOrder(Apply(s, e))
  {
    MakeOwned(s, e);
    OrderedSame(s.core.list, s.core.mem, Apply(s, e).core.mem);
  }

  /** In particular the blocks that are not being sampled are sorted among themselves. */
  lemma InOrderSorted(s: Sys, i: nat, j: nat)
    requires InOrder(s) && i < j < |s.core.list|
    requires s.core.At(i).state != InProgress && s.core.At(j).state != InProgress
    ensures s.core.At(i).due <= s.core.At(j).due
  {
  }

  /** In every state a single retriever can reach, the list is in due-time order. */
  lemma {:induction false} SoloRunOrdered(ss: seq<Sys>, es: seq<Event>, n: nat)
    requires Run(ss, es) && n <= |es|
    requires forall i :: 0 <= i < |es| && Owned(ss[i]) ==> Solo(ss[i], es[i])
    ensures InOrder(ss[n])
  {
    if n == 0 {
      StartOwned(ss[0].core.sync);
    } else {
      SoloRunOrdered(ss, es, n - 1);
      var s, e := ss[n - 1], es[n - 1];
      assert Follows(s, e, ss[n]) && Solo(s, e);
      match e
      case Make(_, _, _) => MakeInOrder(s, e);
      case Insert(_, _) => InsertInOrder(s, e);
      case Select(_, _, _) => SelectInOrder(s, e);
      case Finish(_, _) => FinishInOrder(s, e);
      case Remove_(_) => RemoveInOrder(s, e);
      case Reset_(_) => ResetInOrder(s, e);
    }
  }
}
