/** Interleavings of the scheduler's atomic operations by any number of retrievers: who owns which block
    (mlist.c, in the order of use of mretr.c and gather.c). */
module SchedulerRuns {
  import opened CBytes
  import opened Scheduler

  type Retriever = nat

  datatype Selection = Selection(id: Id, at: int)

  /** `held` says which retriever holds which block between Select and Relocate; `log` and `freed` record the past. */
  datatype Sys = Sys(core: Core, held: map<Retriever, Id>, next: Id, freed: multiset<Id>, log: seq<Selection>)

  datatype Event =
    | Make(metricId: int, interval: int, garbage: int)
    | Insert(id: Id, now: int)
    | Select(r: Retriever, t: int, reserve: bool)
    | Finish(r: Retriever, now: int)
    | Remove_(metricId: int)
    | Reset_(t: int)

  function Start(sync: bool): Sys {
    Sys(Core(sync, [], map[]), map[], 0, multiset{}, [])
  }

  ghost predicate Held(s: Sys, id: Id) {
    exists r :: r in s.held && s.held[r] == id
  }

  /** No block is being sampled, except blocks already removed from the list. */
  ghost predicate Idle(c: Core) {
    forall id :: id in c.mem && id in c.list ==> c.mem[id].state != InProgress
  }

  /** What the callers do: a new block is inserted once, a retriever selects only when it holds nothing and
      relocates only what it holds, and nothing is reset while a block is being sampled.  Wallclock synchronisation
      divides by the interval. */
  ghost predicate Allowed(s: Sys, e: Event) {
    match e
    case Make(_, interval, _) => s.core.sync ==> interval > 0
    case Insert(id, _) => id in s.core.mem && s.core.mem[id].state == Created
    case Select(r, _, _) => r !in s.held
    case Finish(r, _) => r in s.held
    case Remove_(_) => true
    case Reset_(_) => Idle(s.core)
  }

  ghost function Vanished(c: Core, d: Core): multiset<Id> {
    multiset(c.mem.Keys - d.mem.Keys)
  }

  ghost function Apply(s: Sys, e: Event): Sys
    requires Owned(s) && (Allowed(s, e) || e.Reset_?)
  {
    match e
    case Make(metricId, interval, garbage) =>
      if metricId == 0 then s
      else s.(core := s.core.Set(s.next, Block(metricId, interval, garbage, Created)), next := s.next + 1)
    case Insert(id, now) =>
      s.(core := Relocate(s.core, id, now).0)
    case Select(r, t, reserve) =>
      var (d, picked, _) := SelectNextDue(s.core, t, reserve);
      if picked.None? then s.(core := d)
      else s.(core := d, held := s.held[r := picked.value], log := s.log + [Selection(picked.value, t)])
    case Finish(r, now) =>
      var d := Relocate(s.core, s.held[r], now).0;
      s.(core := d, held := s.held - {r}, freed := s.freed + Vanished(s.core, d))
    case Remove_(metricId) =>
      var d := Remove(s.core, metricId);
      s.(core := d, freed := s.freed + Vanished(s.core, d))
    case Reset_(t) =>
      s.(core := Reset(s.core, t))
  }

  /** Where a block in a given state is: in the list or not, held or not. */
  ghost predicate Placed(s: Sys, id: Id)
    requires id in s.core.mem
  {
    var b := s.core.mem[id];
    && (s.core.sync ==> b.interval > 0)
    && (id in s.core.list <==> b.state in {Ready, Reserved, InProgress})
    && (Held(s, id) <==> b.state in {InProgress, Deleted})
  }

  /** A name given out is allocated or was freed once, and no other name was ever freed. */
  ghost predicate Accounted(s: Sys, id: Id) {
    s.freed[id] == if id < s.next && id !in s.core.mem then 1 else 0
  }

  /** A block is held by at most one retriever; what is held is allocated; every name ever given out is
      either allocated or was freed exactly once. */
  ghost predicate Owned(s: Sys) {
    && s.core.WellFormed()
    && (forall id :: id in s.core.mem ==> Placed(s, id))
    && (forall r :: r in s.held ==> s.held[r] in s.core.mem)
    && (forall r, q :: r in s.held && q in s.held && s.held[r] == s.held[q] ==> r == q)
    && (forall id: Id :: Accounted(s, id))
    && (forall id :: id in s.core.mem ==> id < s.next)
  }

  lemma InsertedIn(list: seq<Id>, n: nat, id: Id)
    requires n <= |list| && Distinct(list) && id !in list
    ensures Distinct(Inserted(list, n, id))
    ensures forall x :: x in Inserted(list, n, id) <==> x == id || x in list
  {
    assert list == list[..n] + list[n..];
  }

  lemma WithoutIn(list: seq<Id>, i: nat)
    requires i < |list| && Distinct(list)
    ensures Distinct(Without(list, i))
    ensures forall x :: x in Without(list, i) <==> x in list && x != list[i]
  {
    assert list == list[..i] + [list[i]] + list[i + 1..];
  }

  /** What a relocation changes: the block is Ready and listed, nothing else changes except positions. */
  ghost predicate Listed(c: Core, d: Core, id: Id, b: Block) {
    && d.WellFormed() && d.sync == c.sync
    && d.mem == c.mem[id := b.(state := Ready)]
    && (forall x :: x in d.list <==> x == id || x in c.list)
  }

  lemma RelocateNew(c: Core, id: Id, now: int)
    requires c.WellFormed() && id in c.mem && c.mem[id].state == Created && id !in c.list
    ensures var (d, rc) := Relocate(c, id, now);
      rc == 0 && Listed(c, d, id, c.mem[id].(due := FirstDue(c.sync, now, c.mem[id].interval)))
  {
    InsertedIn(c.list, Slot(c.list, c.mem, FirstDue(c.sync, now, c.mem[id].interval), 0), id);
  }

  lemma MovedIn(list: seq<Id>, mem: map<Id, Block>, due: int, p: nat)
    requires p < |list| && Distinct(list) && forall x :: x in list ==> x in mem
    ensures Distinct(Moved(list, mem, due, p))
    ensures forall x :: x in Moved(list, mem, due, p) <==> x in list
  {
    WithoutIn(list, p);
    var rest := Without(list, p);
    InsertedIn(rest, Slot(rest, mem, due, p), list[p]);
  }

  lemma ListedIndex(list: seq<Id>, id: Id)
    requires id in list
    ensures IndexOf(list, id) < |list|
  {
    assert list[..|list|] == list;
  }

  lemma ListedAgain(c: Core, list: seq<Id>, id: Id)
    requires c.WellFormed() && id in c.mem && id in c.list
    requires Distinct(list) && forall x :: x in list <==> x in c.list
    ensures Listed(c, Core(c.sync, list, c.mem[id := c.mem[id].(state := Ready)]), id, c.mem[id])
  {
  }

  lemma RelocateBusy(c: Core, id: Id, now: int)
    requires c.WellFormed() && id in c.mem && c.mem[id].state == InProgress && id in c.list
    ensures var (d, rc) := Relocate(c, id, now); rc == 0 && Listed(c, d, id, c.mem[id])
  {
    var p := IndexOf(c.list, id);
    ListedIndex(c.list, id);
    MovedIn(c.list, c.mem, c.mem[id].due, p);
    ListedAgain(c, Moved(c.list, c.mem, c.mem[id].due, p), id);
  }

  /** The error return: a block that should be listed and is not. */
  lemma RelocateUnlisted(c: Core, id: Id, now: int)
    requires c.WellFormed() && id in c.mem && c.mem[id].state in {Ready, InProgress, Reserved} && id !in c.list
    ensures Relocate(c, id, now) == (c, -1)
  {
    assert IndexOf(c.list, id) == |c.list|;
  }

  /** What a removal changes, if the metric is listed: the block at `n` leaves the list; it is freed unless busy. */
  lemma RemoveListed(c: Core, metricId: int, n: nat)
    requires c.WellFormed() && n == MetricIndex(c, metricId, 0) < |c.list|
    ensures var d := Remove(c, metricId);
      && d.WellFormed() && d.sync == c.sync
      && d.mem == (if c.At(n).state == InProgress then c.mem[c.list[n] := c.At(n).(state := Deleted)]
                   else c.mem - {c.list[n]})
      && (forall x :: x in d.list <==> x in c.list && x != c.list[n])
  {
    WithoutIn(c.list, n);
  }

  lemma KeepsAccounts(s: Sys, s': Sys)
    requires Owned(s) && s'.freed == s.freed + Vanished(s.core, s'.core)
    requires s'.next == s.next || (s'.next == s.next + 1 && s.next in s'.core.mem)
    requires forall id :: id in s'.core.mem && id !in s.core.mem ==> id == s.next < s'.next
    ensures forall id: Id :: Accounted(s', id)
    ensures forall id :: id in s'.core.mem ==> id < s'.next
  {
    forall id: Id ensures Accounted(s', id) {
      assert Accounted(s, id);
    }
  }

  lemma StartOwned(sync: bool)
    ensures Owned(Start(sync))
  {
    var s := Start(sync);
    forall id: Id ensures Accounted(s, id) {
      assert id !in s.freed;
    }
  }

  lemma MakeOwned(s: Sys, e: Event)
    requires Owned(s) && e.Make? && Allowed(s, e)
    ensures Owned(Apply(s, e))
  {
    var s' := Apply(s, e);
    KeepsAccounts(s, s');
    forall id | id in s'.core.mem ensures Placed(s', id) {
      assert Held(s', id) <==> Held(s, id);
      if id in s.core.mem {
        assert Placed(s, id);
      }
    }
  }

  lemma InsertOwned(s: Sys, e: Event)
    requires Owned(s) && e.Insert? && Allowed(s, e)
    ensures Owned(Apply(s, e)) && Relocate(s.core, e.id, e.now).1 == 0
  {
    var s' := Apply(s, e);
    assert Placed(s, e.id);
    RelocateNew(s.core, e.id, e.now);
    KeepsAccounts(s, s');
    forall id | id in s'.core.mem ensures Placed(s', id) {
      assert Placed(s, id) && (Held(s', id) <==> Held(s, id));
    }
  }

  lemma TakenHeld(s: Sys, s': Sys, r: Retriever, x: Id)
    requires r !in s.held && s'.held == s.held[r := x]
    ensures forall id :: Held(s', id) <==> Held(s, id) || id == x
  {
    assert s'.held[r] == x;
    forall id | Held(s, id) ensures Held(s', id) {
      var q :| q in s.held && s.held[q] == id;
      assert s'.held[q] == id;
    }
  }

  ghost predicate Taken(c: Core, d: Core, x: Id, t: int)
    requires c.WellFormed()
  {
    && x in c.list && Waiting(c.mem[x]) && c.mem[x].due <= t
    && d.mem == c.mem[x := c.mem[x].(state := InProgress, due := NextDue(c.sync, t, c.mem[x].interval))]
  }

  ghost predicate Passed(c: Core, d: Core)
    requires c.WellFormed()
  {
    || d.mem == c.mem
    || exists x :: x in c.list && c.mem[x].state == Ready && d.mem == c.mem[x := c.mem[x].(state := Reserved)]
  }

  /** What a selection changes: at most one waiting block, never the list. */
  lemma SelectChanges(c: Core, t: int, reserve: bool)
    requires c.WellFormed()
    ensures var (d, picked, _) := SelectNextDue(c, t, reserve);
      && d.WellFormed() && d.list == c.list && d.sync == c.sync
      && (picked.Some? ==> Taken(c, d, picked.value, t))
      && (picked.None? ==> Passed(c, d))
  {
    match Scan(c, t, 0)
    case Later(i) => assert c.list[i] in c.list;
    case _ =>
  }

  lemma SelectOwned(s: Sys, e: Event)
    requires Owned(s) && e.Select? && Allowed(s, e)
    ensures Owned(Apply(s, e))
  {
    SelectChanges(s.core, e.t, e.reserve);
    var s' := Apply(s, e);
    var picked := SelectNextDue(s.core, e.t, e.reserve).1;
    if picked.Some? {
      PickedOwned(s, s', e.r, picked.value);
    } else {
      PassedOwned(s, s');
    }
  }

  lemma PickedOwned(s: Sys, s': Sys, r: Retriever, x: Id)
    requires Owned(s) && r !in s.held
    requires s'.held == s.held[r := x] && s'.freed == s.freed && s'.next == s.next
    requires s'.core.WellFormed() && s'.core.list == s.core.list && s'.core.sync == s.core.sync
    requires exists t :: Taken(s.core, s'.core, x, t)
    ensures Owned(s')
  {
    assert Placed(s, x);
    TakenHeld(s, s', r, x);
    KeepsAccounts(s, s');
    forall id | id in s'.core.mem ensures Placed(s', id) {
      assert Placed(s, id);
    }
    forall q | q in s.held ensures s.held[q] != x {
      assert Held(s, s.held[q]);
    }
  }

  lemma PassedOwned(s: Sys, s': Sys)
    requires Owned(s) && s'.held == s.held && s'.freed == s.freed && s'.next == s.next
    requires s'.core.WellFormed() && s'.core.list == s.core.list && s'.core.sync == s.core.sync
      && Passed(s.core, s'.core)
    ensures Owned(s')
  {
    KeepsAccounts(s, s');
    forall id | id in s.core.mem ensures id in s'.core.mem && Placed(s', id) {
      StillPlaced(s, s', id);
    }
  }

  lemma StillPlaced(s: Sys, s': Sys, id: Id)
    requires id in s.core.mem && Placed(s, id) && s'.held == s.held && s'.core.list == s.core.list
    requires s.core.WellFormed() && s'.core.sync == s.core.sync && Passed(s.core, s'.core)
    ensures id in s'.core.mem && Placed(s', id)
  {
    assert Held(s', id) <==> Held(s, id);
  }

  lemma ReleasedHeld(s: Sys, s': Sys, r: Retriever)
    requires Owned(s) && r in s.held && s'.held == s.held - {r}
    ensures forall id :: Held(s', id) <==> Held(s, id) && id != s.held[r]
  {
    forall id | Held(s, id) && id != s.held[r] ensures Held(s', id) {
      var q :| q in s.held && s.held[q] == id;
      assert s'.held[q] == id;
    }
  }

  /** Relocation by the holder always finds its block, or frees it if it was removed meanwhile. */
  lemma FinishOwned(s: Sys, e: Event)
    requires Owned(s) && e.Finish? && Allowed(s, e)
    ensures Owned(Apply(s, e)) && Relocate(s.core, s.held[e.r], e.now).1 == 0
  {
    var s' := Apply(s, e);
    var x := s.held[e.r];
    assert Held(s, x) && Placed(s, x);
    ReleasedHeld(s, s', e.r);
    if s.core.mem[x].state == InProgress {
      RelocateBusy(s.core, x, e.now);
    }
    KeepsAccounts(s, s');
    forall id | id in s'.core.mem ensures Placed(s', id) {
      assert Placed(s, id);
    }
  }

  lemma RemoveOwned(s: Sys, e: Event)
    requires Owned(s) && e.Remove_? && Allowed(s, e)
    ensures Owned(Apply(s, e))
  {
    var s' := Apply(s, e);
    var n := MetricIndex(s.core, e.metricId, 0);
    if n < |s.core.list| {
      RemoveListed(s.core, e.metricId, n);
      assert Placed(s, s.core.list[n]);
      forall r | r in s.held ensures s.held[r] in s'.core.mem {
        assert Held(s, s.held[r]) && Placed(s, s.held[r]);
      }
    }
    forall id ensures Held(s', id) <==> Held(s, id) { }
    KeepsAccounts(s, s');
    forall id | id in s'.core.mem ensures Placed(s', id) {
      assert Placed(s, id);
    }
  }

  /** A reset is safe exactly when no listed block is being sampled. */
  lemma ResetOwnedIff(s: Sys, e: Event)
    requires Owned(s) && e.Reset_?
    ensures Owned(Apply(s, e)) <==> Idle(s.core)
  {
    var s' := Apply(s, e);
    if Idle(s.core) {
      KeepsAccounts(s, s');
      forall id | id in s'.core.mem ensures Placed(s', id) {
        assert Placed(s, id) && (Held(s', id) <==> Held(s, id));
      }
    } else {
      var id :| id in s.core.mem && id in s.core.list && s.core.mem[id].state == InProgress;
      assert Placed(s, id) && (Held(s', id) <==> Held(s, id));
      assert !Placed(s', id);
    }
  }

  lemma StepOwned(s: Sys, e: Event)
    requires Owned(s) && Allowed(s, e)
    ensures Owned(Apply(s, e))
  {
    match e
    case Make(_, _, _) => MakeOwned(s, e);
    case Insert(_, _) => InsertOwned(s, e);
    case Select(_, _, _) => SelectOwned(s, e);
    case Finish(_, _) => FinishOwned(s, e);
    case Remove_(_) => RemoveOwned(s, e);
    case Reset_(_) => ResetOwnedIff(s, e);
  }

  /** `ss` are the states of a run: each follows from the one before by an allowed event.  `Apply` is defined on
      owned states; that every state of a run is one is what `RunOwned` shows. */
  ghost predicate Run(ss: seq<Sys>, es: seq<Event>) {
    && |ss| == |es| + 1
    && ss[0] == Start(ss[0].core.sync)
    && forall i :: 0 <= i < |es| ==> Follows(ss[i], es[i], ss[i + 1])
  }

  ghost predicate Follows(s: Sys, e: Event, s': Sys) {
    Owned(s) ==> Allowed(s, e) && s' == Apply(s, e)
  }

  /** Ownership in every reachable state. */
  lemma {:induction false} RunOwned(ss: seq<Sys>, es: seq<Event>, n: nat)
    requires Run(ss, es) && n <= |es|
    ensures Owned(ss[n])
  {
    if n == 0 {
      StartOwned(ss[0].core.sync);
    } else {
      RunOwned(ss, es, n - 1);
      assert Follows(ss[n - 1], es[n - 1], ss[n]);
      StepOwned(ss[n - 1], es[n - 1]);
    }
  }

  lemma FinishFrees(s: Sys, e: Event, id: Id)
    requires Owned(s) && e.Finish? && Allowed(s, e) && id in s.core.mem
    ensures id !in Apply(s, e).core.mem <==> s.held[e.r] == id && s.core.mem[id].state == Deleted
  {
    var x := s.held[e.r];
    assert Held(s, x) && Placed(s, x);
    if s.core.mem[x].state == InProgress {
      RelocateBusy(s.core, x, e.now);
    }
  }

  /** A block that disappears while somebody holds it is freed by its holder's relocation, after a removal. */
  lemma FreedByHolder(s: Sys, e: Event, id: Id)
    requires Owned(s) && Allowed(s, e) && id in s.core.mem && Held(s, id)
    ensures id !in Apply(s, e).core.mem <==> e.Finish? && s.held[e.r] == id && s.core.mem[id].state == Deleted
  {
    match e
    case Insert(x, now) =>
      assert Placed(s, x);
      RelocateNew(s.core, x, now);
    case Finish(r, now) =>
      FinishFrees(s, e, id);
    case Remove_(metricId) =>
      assert Placed(s, id);
      var n := MetricIndex(s.core, metricId, 0);
      if n < |s.core.list| {
        RemoveListed(s.core, metricId, n);
      }
    case _ =>
  }

  lemma StepKeepsFreed(s: Sys, e: Event, id: Id)
    requires Owned(s) && Allowed(s, e) && s.freed[id] > 0
    ensures Owned(Apply(s, e)) && Apply(s, e).freed[id] > 0
  {
    StepOwned(s, e);
  }

  /** Once freed, a block is freed exactly once, and at no later time of the run allocated, listed or held. */
  lemma {:induction false} FreedForGood(ss: seq<Sys>, es: seq<Event>, n: nat, m: nat, id: Id)
    requires Run(ss, es) && n <= m <= |es| && ss[n].freed[id] > 0
    ensures ss[m].freed[id] == 1 && id !in ss[m].core.mem && id !in ss[m].core.list && !Held(ss[m], id)
    decreases m - n
  {
    RunOwned(ss, es, m);
    RunFreed(ss, es, n, m, id);
    assert Accounted(ss[m], id);
  }

  lemma {:induction false} RunFreed(ss: seq<Sys>, es: seq<Event>, n: nat, m: nat, id: Id)
    requires Run(ss, es) && n <= m <= |es| && ss[n].freed[id] > 0
    ensures ss[m].freed[id] > 0
    decreases m - n
  {
    if n < m {
      RunFreed(ss, es, n, m - 1, id);
      RunOwned(ss, es, m - 1);
      assert Follows(ss[m - 1], es[m - 1], ss[m]);
      StepKeepsFreed(ss[m - 1], es[m - 1], id);
    }
  }

  // ----- what stays in the list -----

  /** A removal takes the first block of its metric out of the list, and leaves every other block as it is. */
  lemma RemoveTakesOne(c: Core, metricId: int)
    requires c.WellFormed()
    ensures (forall k :: 0 <= k < |c.list| ==> c.At(k).metricId != metricId) ==> Remove(c, metricId) == c
    ensures (exists k :: 0 <= k < |c.list| && c.At(k).metricId == metricId) ==>
      exists n :: TakesOut(c, Remove(c, metricId), metricId, n)
  {
    var n := MetricIndex(c, metricId, 0);
    if n < |c.list| {
      assert TakesOut(c, Remove(c, metricId), metricId, n);
    }
  }

  ghost predicate TakesOut(c: Core, d: Core, metricId: int, n: nat)
    requires c.WellFormed()
  {
    && n < |c.list| && c.At(n).metricId == metricId && (forall k :: 0 <= k < n ==> c.At(k).metricId != metricId)
    && d.sync == c.sync && d.list == c.list[..n] + c.list[n + 1..]
    && d.mem == if c.At(n).state == InProgress then c.mem[c.list[n] := c.At(n).(state := Deleted)]
                else c.mem - {c.list[n]}
  }

  /** The block is listed, and is of this metric and interval. */
  predicate ListedAs(c: Core, id: Id, metricId: int, interval: int) {
    id in c.list && id in c.mem && c.mem[id].metricId == metricId && c.mem[id].interval == interval
  }

  lemma StepStaysListed(s: Sys, e: Event, id: Id, metricId: int, interval: int)
    requires Owned(s) && Allowed(s, e) && ListedAs(s.core, id, metricId, interval) && e != Remove_(metricId)
    ensures ListedAs(Apply(s, e).core, id, metricId, interval)
  {
    assert Placed(s, id);
    match e
    case Insert(x, now) =>
      assert Placed(s, x);
      RelocateNew(s.core, x, now);
    case Select(_, t, reserve) => SelectChanges(s.core, t, reserve);
    case Finish(r, now) =>
      assert Held(s, s.held[r]) && Placed(s, s.held[r]);
      if s.core.mem[s.held[r]].state == InProgress {
        RelocateBusy(s.core, s.held[r], now);
      }
    case Remove_(other) =>
      var n := MetricIndex(s.core, other, 0);
      if n < |s.core.list| {
        RemoveListed(s.core, other, n);
      }
    case _ =>
  }

  /** In every run a listed block stays listed, with its metric and interval, until its metric is removed. */
  lemma {:induction false} StaysListed(ss: seq<Sys>, es: seq<Event>, n: nat, m: nat, id: Id, metricId: int,
                                       interval: int)
    requires Run(ss, es) && n <= m <= |es| && ListedAs(ss[n].core, id, metricId, interval)
    requires forall k :: n <= k < m ==> es[k] != Remove_(metricId)
    ensures ListedAs(ss[m].core, id, metricId, interval)
    decreases m - n
  {
    if n < m {
      StaysListed(ss, es, n, m - 1, id, metricId, interval);
      RunOwned(ss, es, m - 1);
      assert Follows(ss[m - 1], es[m - 1], ss[m]);
      StepStaysListed(ss[m - 1], es[m - 1], id, metricId, interval);
    }
  }

  // ----- reservations -----

  /** A selection at `t` tells its retriever to wait for `id`. */
  ghost predicate WaitsFor(c: Core, t: int, id: Id)
    requires c.WellFormed()
  {
    var p := Scan(c, t, 0);
    p.Later? && c.list[p.i] == id
  }

  ghost predicate Reserves(c: Core, id: Id) {
    id in c.mem && c.mem[id].state == Reserved
  }

  /** What ends a reservation: the block is selected or removed, or the list is reset. */
  ghost predicate Ends(s: Sys, e: Event, id: Id)
    requires Owned(s)
  {
    match e
    case Select(_, t, reserve) => SelectNextDue(s.core, t, reserve).1 == Some(id)
    case Remove_(metricId) => id !in Remove(s.core, metricId).list
    case Reset_(_) => true
    case _ => false
  }

  lemma ReservationKept(s: Sys, e: Event, id: Id)
    requires Owned(s) && Allowed(s, e) && Reserves(s.core, id) && !Ends(s, e, id)
    ensures Reserves(Apply(s, e).core, id)
  {
    assert Placed(s, id);
    match e
    case Insert(x, now) =>
      assert Placed(s, x);
      RelocateNew(s.core, x, now);
    case Select(_, t, reserve) => SelectChanges(s.core, t, reserve);
    case Finish(r, now) => FinishKeepsReserved(s, r, now, id);
    case Remove_(metricId) =>
      var n := MetricIndex(s.core, metricId, 0);
      if n < |s.core.list| {
        RemoveListed(s.core, metricId, n);
      }
    case _ =>
  }

  lemma FinishKeepsReserved(s: Sys, r: Retriever, now: int, id: Id)
    requires Owned(s) && r in s.held && Reserves(s.core, id)
    ensures Reserves(Relocate(s.core, s.held[r], now).0, id)
  {
    var x := s.held[r];
    assert Held(s, x) && Placed(s, x) && Placed(s, id);
    if s.core.mem[x].state == InProgress {
      RelocateBusy(s.core, x, now);
    }
  }

  ghost predicate Undisturbed(ss: seq<Sys>, es: seq<Event>, n: nat, m: nat, id: Id) {
    m <= |es| < |ss| && forall k :: n < k < m && Owned(ss[k]) ==> !Ends(ss[k], es[k], id)
  }

  /** A reservation is exclusive: once a retriever has been told, with `reserve`, to wait for a block, no retriever is
      told to wait for the same block until it has been selected or removed, or the list reset. */
  lemma ReservationIsExclusive(ss: seq<Sys>, es: seq<Event>, n: nat, m: nat, id: Id, t: int)
    requires Run(ss, es) && n < m <= |es| && es[n].Select? && es[n].reserve
    requires ss[n].core.WellFormed() && WaitsFor(ss[n].core, es[n].t, id)
    requires Undisturbed(ss, es, n, m, id)
    ensures Reserves(ss[m].core, id) && ss[m].core.WellFormed() && !WaitsFor(ss[m].core, t, id)
  {
    RunOwned(ss, es, n);
    assert Follows(ss[n], es[n], ss[n + 1]);
    WaitingReserves(ss[n].core, es[n].t, id);
    RunReserved(ss, es, n, m, id);
    RunOwned(ss, es, m);
    ReservedUnwaited(ss[m].core, t, id);
  }

  lemma {:induction false} RunReserved(ss: seq<Sys>, es: seq<Event>, n: nat, m: nat, id: Id)
    requires Run(ss, es) && n < m <= |es| && Reserves(ss[n + 1].core, id) && Undisturbed(ss, es, n, m, id)
    ensures Reserves(ss[m].core, id)
    decreases m - n
  {
    if n + 1 < m {
      RunReserved(ss, es, n, m - 1, id);
      RunOwned(ss, es, m - 1);
      assert Follows(ss[m - 1], es[m - 1], ss[m]);
      ReservationKept(ss[m - 1], es[m - 1], id);
    }
  }

  lemma WaitingReserves(c: Core, t: int, id: Id)
    requires c.WellFormed() && WaitsFor(c, t, id)
    ensures Reserves(SelectNextDue(c, t, true).0, id) && SelectNextDue(c, t, true).1 == None
  {
  }

  lemma ReservedUnwaited(c: Core, t: int, id: Id)
    requires c.WellFormed() && Reserves(c, id)
    ensures !WaitsFor(c, t, id)
  {
  }
}
