/** Inputs on which the scheduler loses its due-time order or misses a due time (mlist.c, mretr.c). */
module SchedulerCases {
  import opened CBytes
  import opened Scheduler
  import opened SchedulerRuns
  import opened SchedulerOrder

  // ----- a run in which a retriever sleeps past its own reservation -----

  /** One call of a single retriever or of its environment. */
  ghost predicate Link(s: Sys, e: Event, s': Sys) {
    Owned(s) && Solo(s, e) && s' == Apply(s, e) && Owned(s')
  }

  ghost predicate Path(ss: seq<Sys>, es: seq<Event>) {
    |ss| == |es| + 1 && forall i :: 0 <= i < |es| ==> Link(ss[i], es[i], ss[i + 1])
  }

  lemma Join(ss: seq<Sys>, es: seq<Event>, tt: seq<Sys>, ds: seq<Event>)
    requires Path(ss, es) && Path(tt, ds) && ss[|es|] == tt[0]
    ensures Path(ss + tt[1..], es + ds)
  {
    var uu, all := ss + tt[1..], es + ds;
    forall i | 0 <= i < |all| ensures Link(uu[i], all[i], uu[i + 1]) {
      if i < |es| {
        assert Link(ss[i], es[i], ss[i + 1]);
      } else {
        assert Link(tt[i - |es|], ds[i - |es|], tt[i - |es| + 1]);
      }
    }
  }

  lemma PathRuns(ss: seq<Sys>, es: seq<Event>, sync: bool)
    requires Path(ss, es) && ss[0] == Start(sync)
    ensures Run(ss, es) && forall i :: 0 <= i < |es| ==> Owned(ss[i]) && Solo(ss[i], es[i])
  {
    forall i | 0 <= i < |es| ensures Follows(ss[i], es[i], ss[i + 1]) && Owned(ss[i]) && Solo(ss[i], es[i]) {
      assert Link(ss[i], es[i], ss[i + 1]);
    }
  }

  lemma InsertFront(c: Core, id: Id, t: int)
    requires c.WellFormed() && !c.sync && id in c.mem && c.mem[id].state == Created && id !in c.list
    requires forall x :: x in c.list ==> c.mem[x].due > 0
    ensures Relocate(c, id, t).0
      == Core(false, [id] + c.list, c.mem[id := c.mem[id].(due := 0, state := Ready)])
  {
    if c.list != [] {
      assert c.list[0] in c.list;
    }
    assert Slot(c.list, c.mem, 0, 0) == 0;
    assert Inserted(c.list, 0, id) == [id] + c.list;
  }

  lemma SelectFront(c: Core, t: int)
    requires c.WellFormed() && !c.sync && c.list != [] && c.At(0).state == Ready && c.At(0).due <= t
    ensures SelectNextDue(c, t, true)
      == (c.Set(c.list[0], c.At(0).(state := InProgress, due := t + c.At(0).interval)), Some(c.list[0]), t)
  {
    assert Scan(c, t, 0) == Due(0);
  }

  lemma FinishToBack(c: Core, t: int)
    requires c.WellFormed() && c.list != [] && c.At(0).state == InProgress
    requires forall x :: x in c.list ==> c.mem[x].due <= c.At(0).due
    ensures Relocate(c, c.list[0], t).0
      == Core(c.sync, c.list[1..] + [c.list[0]], c.mem[c.list[0] := c.At(0).(state := Ready)])
  {
    var rest := Without(c.list, 0);
    assert rest == c.list[1..] && IndexOf(c.list, c.list[0]) == 0;
    SlotAtEnd(rest, c.mem, c.At(0).due);
    assert Inserted(rest, |rest|, c.list[0]) == rest + [c.list[0]];
  }

  lemma SlotAtEnd(list: seq<Id>, mem: map<Id, Block>, due: int)
    requires forall x :: x in list ==> x in mem && mem[x].due <= due
    ensures Slot(list, mem, due, 0) == |list|
  {
  }

  lemma MakeNew(s: Sys, metricId: int, interval: int) returns (s': Sys)
    requires Owned(s) && metricId != 0 && interval >= 0 && !s.core.sync
    ensures Link(s, Make(metricId, interval, 0), s') && s'.held == s.held && s'.next == s.next + 1
    ensures s.next !in s.core.mem && s'.core == s.core.Set(s.next, Block(metricId, interval, 0, Created))
  {
    StepOwned(s, Make(metricId, interval, 0));
    s' := Apply(s, Make(metricId, interval, 0));
  }

  lemma InsertNew(s: Sys, id: Id, t: int) returns (s': Sys)
    requires Owned(s) && t >= 0 && !s.core.sync && id in s.core.mem && s.core.mem[id].state == Created
    requires forall x :: x in s.core.list ==> s.core.mem[x].due > 0
    ensures Link(s, Insert(id, t), s') && s'.held == s.held && s'.next == s.next
    ensures s'.core
      == Core(false, [id] + s.core.list, s.core.mem[id := s.core.mem[id].(due := 0, state := Ready)])
  {
    assert Placed(s, id);
    InsertFront(s.core, id, t);
    StepOwned(s, Insert(id, t));
    s' := Apply(s, Insert(id, t));
  }

  lemma SampleFront(s: Sys, t: int) returns (s': Sys)
    requires Owned(s) && t >= 0 && !s.core.sync && s.held == map[]
    requires s.core.list != [] && s.core.At(0).state == Ready && s.core.At(0).due <= t
    ensures Link(s, Select(0, t, true), s') && s'.held == map[0 := s.core.list[0]] && s'.next == s.next
    ensures var b := s.core.At(0);
      s'.core == s.core.Set(s.core.list[0], b.(state := InProgress, due := t + b.interval))
  {
    SelectFront(s.core, t);
    StepOwned(s, Select(0, t, true));
    s' := Apply(s, Select(0, t, true));
  }

  lemma FinishFront(s: Sys, t: int) returns (s': Sys)
    requires Owned(s) && s.core.list != [] && s.held == map[0 := s.core.list[0]]
    requires s.core.At(0).state == InProgress && forall x :: x in s.core.list ==> s.core.mem[x].due <= s.core.At(0).due
    ensures Link(s, Finish(0, t), s') && s'.held == map[] && s'.next == s.next
    ensures var x := s.core.list[0];
      s'.core == Core(s.core.sync, s.core.list[1..] + [x], s.core.mem[x := s.core.At(0).(state := Ready)])
  {
    FinishToBack(s.core, t);
    StepOwned(s, Finish(0, t));
    s' := Apply(s, Finish(0, t));
  }

  lemma TwoLinks(s: Sys, d: Event, a: Sys, e: Event, b: Sys)
    requires Link(s, d, a) && Link(a, e, b)
    ensures Path([s, a, b], [d, e])
  {
  }

  lemma AddFront(s: Sys, metricId: int, interval: int, t: int) returns (ss: seq<Sys>, s': Sys)
    requires Owned(s) && t >= 0 && metricId != 0 && interval >= 0 && !s.core.sync
    requires forall x :: x in s.core.list ==> s.core.mem[x].due > 0
    ensures Path(ss, [Make(metricId, interval, 0), Insert(s.next, t)]) && ss[0] == s && ss[2] == s' && Owned(s')
    ensures s'.held == s.held && s'.next == s.next + 1 && s.next !in s.core.mem
    ensures s'.core == Core(false, [s.next] + s.core.list, s.core.mem[s.next := Block(metricId, interval, 0, Ready)])
  {
    var a := MakeNew(s, metricId, interval);
    s' := InsertNew(a, s.next, t);
    TwoLinks(s, Make(metricId, interval, 0), a, Insert(s.next, t), s');
    ss := [s, a, s'];
  }

  lemma Sample(s: Sys, t: int) returns (ss: seq<Sys>, s': Sys)
    requires Owned(s) && t >= 0 && !s.core.sync && s.held == map[]
    requires s.core.list != [] && s.core.At(0).state == Ready && s.core.At(0).due <= t
    requires forall x :: x in s.core.list ==> s.core.mem[x].due <= t + s.core.At(0).interval
    ensures Path(ss, [Select(0, t, true), Finish(0, t)]) && ss[0] == s && ss[2] == s' && Owned(s')
    ensures s'.held == map[] && s'.next == s.next
    ensures s'.core == Rotated(s.core, s.core.At(0).(due := t + s.core.At(0).interval))
  {
    var a := SampleFront(s, t);
    s' := FinishFront(a, t);
    TwoLinks(s, Select(0, t, true), a, Finish(0, t), s');
    ss := [s, a, s'];
  }

  /** The first block, changed to `b`, goes to the end. */
  function Rotated(c: Core, b: Block): Core
    requires c.list != []
  {
    Core(c.sync, c.list[1..] + [c.list[0]], c.mem[c.list[0] := b])
  }

  lemma RotatedNew(list: seq<Id>, mem: map<Id, Block>, id: Id, b: Block, b': Block)
    ensures Rotated(Core(false, [id] + list, mem[id := b]), b') == Core(false, list + [id], mem[id := b'])
  {
    assert ([id] + list)[1..] == list;
  }

  /** A metric is added and sampled at `t`. */
  function Enlisting(metricId: int, interval: int, id: Id, t: int): seq<Event> {
    [Make(metricId, interval, 0), Insert(id, t)] + [Select(0, t, true), Finish(0, t)]
  }

  /** If nothing is due at `t`, and nothing later than the new metric, it goes to the end of the list. */
  lemma Enlist(s: Sys, metricId: int, interval: int, t: int) returns (ss: seq<Sys>, s': Sys)
    requires Owned(s) && t >= 0 && metricId != 0 && interval >= 0 && !s.core.sync && s.held == map[]
    requires forall x :: x in s.core.list ==> t < s.core.mem[x].due <= t + interval
    ensures Path(ss, Enlisting(metricId, interval, s.next, t)) && ss[0] == s && ss[4] == s' && Owned(s')
    ensures s'.held == map[] && s'.next == s.next + 1
    ensures s'.core == Core(false, s.core.list + [s.next],
                            s.core.mem[s.next := Block(metricId, interval, t + interval, Ready)])
  {
    var added, a := AddFront(s, metricId, interval, t);
    var sampled;
    sampled, s' := Sample(a, t);
    RotatedNew(s.core.list, s.core.mem, s.next, Block(metricId, interval, 0, Ready),
               Block(metricId, interval, t + interval, Ready));
    Join(added, [Make(metricId, interval, 0), Insert(s.next, t)], sampled, [Select(0, t, true), Finish(0, t)]);
    ss := added + sampled[1..];
  }

  /** Three metrics: sampled at 0, sampled at 2, and, after the retriever has been told to sleep until 100, added at 3,
      which wakes it. */
  const WOKEN: seq<Event> := RESERVING + Enlisting(9, 500, 2, 3)
  const RESERVING: seq<Event> := Enlisting(7, 100, 0, 0) + Enlisting(8, 300, 1, 2) + [Select(0, 2, true)]

  /** After these events the retriever has reserved the block that is due at 100, and is told to sleep until 302. */
  lemma SleepsPastItsReservation() returns (ss: seq<Sys>, s: Sys)
    ensures Run(ss, WOKEN) && (forall i :: 0 <= i < |WOKEN| ==> Owned(ss[i]) && Solo(ss[i], WOKEN[i]))
    ensures s == ss[|WOKEN|] && s.held == map[] && s.core.WellFormed()
    ensures 0 in s.core.list && s.core.mem[0] == Block(7, 100, 100, Reserved)
    ensures SelectNextDue(s.core, 3, true).1.None? && SelectNextDue(s.core, 3, true).2 == 302
  {
    var before, a := Reserving();
    var after;
    after, s := Enlist(a, 9, 500, 3);
    Join(before, RESERVING, after, Enlisting(9, 500, 2, 3));
    ss := before + after[1..];
    PathRuns(ss, WOKEN, false);
    SleepsTooLong(s.core);
  }

  lemma Reserving() returns (ss: seq<Sys>, s: Sys)
    ensures Path(ss, RESERVING) && ss[0] == Start(false) && ss[9] == s && Owned(s) && s.held == map[] && s.next == 2
    ensures s.core == Core(false, [0, 1], map[0 := Block(7, 100, 100, Reserved), 1 := Block(8, 300, 302, Ready)])
  {
    var two, a := Sampling();
    s := Reserve(a);
    Join(two, Enlisting(7, 100, 0, 0) + Enlisting(8, 300, 1, 2), [a, s], [Select(0, 2, true)]);
    ss := two + [a, s][1..];
  }

  lemma Sampling() returns (ss: seq<Sys>, s: Sys)
    ensures Path(ss, Enlisting(7, 100, 0, 0) + Enlisting(8, 300, 1, 2))
    ensures ss[0] == Start(false) && ss[8] == s && Owned(s) && s.held == map[] && s.next == 2
    ensures s.core == Core(false, [0, 1], map[0 := Block(7, 100, 100, Ready), 1 := Block(8, 300, 302, Ready)])
  {
    var first, a := SamplingFirst();
    var second;
    second, s := Enlist(a, 8, 300, 2);
    Join(first, Enlisting(7, 100, 0, 0), second, Enlisting(8, 300, 1, 2));
    ss := first + second[1..];
  }

  lemma SamplingFirst() returns (ss: seq<Sys>, s: Sys)
    ensures Path(ss, Enlisting(7, 100, 0, 0)) && ss[0] == Start(false) && ss[4] == s && Owned(s)
    ensures s.held == map[] && s.next == 1 && s.core == Core(false, [0], map[0 := Block(7, 100, 100, Ready)])
  {
    StartOwned(false);
    ss, s := Enlist(Start(false), 7, 100, 0);
  }

  lemma Reserve(s: Sys) returns (s': Sys)
    requires Owned(s) && s.held == map[]
    requires s.core == Core(false, [0, 1], map[0 := Block(7, 100, 100, Ready), 1 := Block(8, 300, 302, Ready)])
    ensures Path([s, s'], [Select(0, 2, true)]) && Owned(s') && s'.held == map[] && s'.next == s.next
    ensures s'.core == s.core.Set(0, Block(7, 100, 100, Reserved))
  {
    assert Scan(s.core, 2, 0) == Later(0);
    StepOwned(s, Select(0, 2, true));
    s' := Apply(s, Select(0, 2, true));
    assert Link(s, Select(0, 2, true), s');
  }

  lemma SleepsTooLong(c: Core)
    requires c.WellFormed() && c.list == [0, 1, 2] && c.At(0) == Block(7, 100, 100, Reserved)
    requires c.At(1) == Block(8, 300, 302, Ready)
    ensures SelectNextDue(c, 3, true).1.None? && SelectNextDue(c, 3, true).2 == 302
  {
    assert Scan(c, 3, 1) == Later(1);
  }

  // ----- lists that lose their order -----

  /** `early` is due at `t`, but a retriever that selects at `t` is told to sleep until `next`. */
  ghost predicate Misses(c: Core, t: int, early: Id, next: int) {
    && c.WellFormed() && early in c.list && c.mem[early].state == Ready && c.mem[early].due <= t < next
    && SelectNextDue(c, t, true).1.None? && SelectNextDue(c, t, true).2 == next
  }

  /** A list is out of order as soon as its head waits for a time at which another block is already due. */
  lemma HeadMisses(c: Core, t: int, k: nat)
    requires c.WellFormed() && 0 < k < |c.list| && c.At(0).state == Ready && c.At(0).due > t
    requires c.At(k).state == Ready && c.At(k).due <= t
    ensures !Ordered(c.list, c.mem) && Misses(c, t, c.list[k], c.At(0).due)
  {
    assert Scan(c, t, 0) == Later(0);
  }

  /** Intervals of 60 and 90 seconds, neither dividing the other: a synchronised reset at 89 leaves the first block, due
      at 120, in front of the second, due at 90. */
  lemma ResetMissesDue()
    ensures var c := Core(true, [0, 1], map[0 := Block(7, 60, 60, Ready), 1 := Block(8, 90, 90, Ready)]);
      c.WellFormed() && Ordered(c.list, c.mem) && Misses(Reset(c, 89), 90, 1, 120)
  {
    var c := Core(true, [0, 1], map[0 := Block(7, 60, 60, Ready), 1 := Block(8, 90, 90, Ready)]);
    var d := Reset(c, 89);
    assert c.WellFormed() && d.mem[0] == Block(7, 60, 120, Ready) && d.mem[1] == Block(8, 90, 90, Ready);
    assert d.At(0) == d.mem[0] && d.At(1) == d.mem[1];
    HeadMisses(d, 90, 1);
  }

  /** A new block, synchronised to be due at 80, is inserted in front of a block in progress that is due again at 100
      and stands before a block that is due at 60. */
  lemma InsertionMissesDue()
    ensures var c := Core(true, [1, 0], map[
        0 := Block(7, 60, 60, Ready), 1 := Block(8, 50, 100, InProgress), 2 := Block(9, 80, 0, Created)]);
      c.WellFormed() && Ordered(c.list, c.mem) && Misses(Relocate(c, 2, 51).0, 60, 0, 80)
  {
    var c := Core(true, [1, 0], map[
      0 := Block(7, 60, 60, Ready), 1 := Block(8, 50, 100, InProgress), 2 := Block(9, 80, 0, Created)]);
    assert c.WellFormed() && Slot(c.list, c.mem, 80, 0) == 0;
    var d := Relocate(c, 2, 51).0;
    assert d == Core(true, [2, 1, 0], c.mem[2 := Block(9, 80, 80, Ready)]);
    assert d.At(0) == d.mem[2] && d.At(2) == d.mem[0];
    HeadMisses(d, 60, 2);
  }

  lemma StaysInFront(c: Core, now: int)
    requires c.WellFormed() && |c.list| > 1 && c.At(0).state == InProgress && c.At(1).due > c.At(0).due
    ensures Relocate(c, c.list[0], now).0 == Core(c.sync, c.list, c.mem[c.list[0] := c.At(0).(state := Ready)])
  {
    var rest := c.list[1..];
    assert Without(c.list, 0) == rest && IndexOf(c.list, c.list[0]) == 0;
    assert rest[0] == c.list[1] && Slot(rest, c.mem, c.At(0).due, 0) == 0;
    assert Inserted(rest, 0, c.list[0]) == c.list;
  }

  /** Of two blocks in progress, the one due at 100 is relocated in front of the one due at 200, which stands before a
      block that is due at 60. */
  lemma RelocationMissesDue()
    ensures CROWDED.WellFormed() && Ordered(CROWDED.list, CROWDED.mem)
    ensures Misses(Relocate(CROWDED, 2, 41).0, 70, 0, 100)
  {
    CrowdedRelocated();
    CrowdedMisses(CROWDED_AFTER);
  }

  const CROWDED: Core := Core(false, [2, 1, 0], map[
    0 := Block(7, 60, 60, Ready), 1 := Block(8, 170, 200, InProgress), 2 := Block(9, 60, 100, InProgress)])
  const CROWDED_AFTER: Core := CROWDED.Set(2, Block(9, 60, 100, Ready))

  lemma CrowdedRelocated()
    ensures CROWDED.WellFormed() && Relocate(CROWDED, 2, 41).0 == CROWDED_AFTER
  {
    var c := CROWDED;
    assert c.WellFormed() && c.At(0) == c.mem[2] && c.At(1) == c.mem[1];
    StaysInFront(c, 41);
  }

  lemma CrowdedMisses(d: Core)
    requires d == CROWDED_AFTER
    ensures Misses(d, 70, 0, 100)
  {
    assert d.WellFormed() && d.At(0) == d.mem[2] && d.At(2) == d.mem[0];
    HeadMisses(d, 70, 2);
  }
}
