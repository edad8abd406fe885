/** Whole runs of the repository: which values are held, and how old they can get (mreposl.c). */
module RepositoryRuns {
  import opened History
  import opened Repository

  /** Adding a value changes one history, that of its metric, resource and system, by one value in front. */
  lemma HistoryConsed(c: Contents, mv: MetricValue, id: int, k: ResKey)
    ensures HistoryOf(Consed(c, mv), id, k)
      == if id == mv.id && k.resource == mv.resource && k.system == mv.systemId then [mv] + HistoryOf(c, id, k)
         else HistoryOf(c, id, k)
  {
  }

  lemma HistoryPruned(c: Contents, cutoff: int, id: int, k: ResKey)
    ensures HistoryOf(PruneContents(c, cutoff), id, k) == PruneValues(HistoryOf(c, id, k), cutoff)
  {
  }

  lemma PrunedHistory(p: Store, now: int, exp: int, id: int, k: ResKey)
    requires p.nextPrune < now && NewestFirst(HistoryOf(p.contents, id, k))
    ensures HistoryOf(PruneStep(p, now, exp).contents, id, k) == NewerThan(HistoryOf(p.contents, id, k), now - exp)
  {
    HistoryPruned(p.contents, now - exp, id, k);
    PruneKeepsUnexpired(HistoryOf(p.contents, id, k), now - exp);
  }

  /** After a prune there is none for half an expiration interval; the next one drops exactly the expired values. */
  lemma PrunedEveryHalfInterval(st: Store, now: int, later: int, exp: int, id: int, k: ResKey)
    requires st.nextPrune < now
    ensures var p := PruneStep(st, now, exp);
      && (later <= now + exp / 2 ==> PruneStep(p, later, exp) == p)
      && (later > now + exp / 2 && NewestFirst(HistoryOf(p.contents, id, k)) ==>
            HistoryOf(PruneStep(p, later, exp).contents, id, k) == NewerThan(HistoryOf(p.contents, id, k), later - exp))
  {
    var p := PruneStep(st, now, exp);
    if later > now + exp / 2 && NewestFirst(HistoryOf(p.contents, id, k)) {
      PrunedHistory(p, later, exp, id, k);
    }
  }

  datatype Event = Add(mv: MetricValue, now: int) | Shutdown

  function Step(st: Store, e: Event, exp: int): Store {
    match e
    case Add(mv, now) => AddStep(st, mv, now, exp)
    case Shutdown => st.(contents := map[])
  }

  function Run(es: seq<Event>, exp: int): Store {
    if es == [] then Store(map[], 0) else Step(Run(es[..|es| - 1], exp), es[|es| - 1], exp)
  }

  function Clock(es: seq<Event>): int {
    if es == [] then 0
    else match es[|es| - 1]
      case Add(_, now) => now
      case Shutdown => Clock(es[..|es| - 1])
  }

  /** An addition that respects the clock: time does not run backwards, and the value is neither stamped in the
      future, nor expired on arrival, nor older than the newest value of its own history. */
  ghost predicate Timely(st: Store, clock: int, e: Event, exp: int) {
    e.Add? ==>
      (clock <= e.now && e.now - exp < e.mv.timeStamp <= e.now
       && forall v :: v in HistoryOf(st.contents, e.mv.id, ResKey(e.mv.resource, e.mv.systemId)) ==>
         v.timeStamp <= e.mv.timeStamp)
  }

  ghost predicate TimelyRun(es: seq<Event>, exp: int) {
    es != [] ==>
      (TimelyRun(es[..|es| - 1], exp)
       && Timely(Run(es[..|es| - 1], exp), Clock(es[..|es| - 1]), es[|es| - 1], exp))
  }

  /** Sorted, newer than `lo` and not newer than `hi`. */
  ghost predicate Between(h: Values, lo: int, hi: int) {
    NewestFirst(h) && forall i :: 0 <= i < |h| ==> lo < h[i].timeStamp <= hi
  }

  ghost predicate AllBetween(c: Contents, lo: int, hi: int) {
    forall id, k :: Between(HistoryOf(c, id, k), lo, hi)
  }

  /** Everything held is sorted, from no later than `clock`, and was unexpired at the last prune. */
  ghost predicate Aged(st: Store, clock: int, exp: int) {
    && 0 <= clock && st.nextPrune - exp / 2 <= clock
    && AllBetween(st.contents, st.nextPrune - exp / 2 - exp, clock)
  }

  lemma PruneAged(st: Store, clock: int, now: int, exp: int)
    requires Aged(st, clock, exp) && clock <= now && exp > 0
    ensures Aged(PruneStep(st, now, exp), now, exp)
    ensures AllBetween(PruneStep(st, now, exp).contents, now - exp - exp / 2, now)
  {
    var p := PruneStep(st, now, exp);
    forall id, k
      ensures Between(HistoryOf(p.contents, id, k), p.nextPrune - exp / 2 - exp, now)
      ensures Between(HistoryOf(p.contents, id, k), now - exp - exp / 2, now)
    {
      assert Between(HistoryOf(st.contents, id, k), st.nextPrune - exp / 2 - exp, clock);
      HistoryPruned(st.contents, now - exp, id, k);
    }
  }

  lemma ConsBetween(h: Values, mv: MetricValue, lo: int, hi: int)
    requires Between(h, lo, hi) && lo < mv.timeStamp <= hi
    requires forall v :: v in h ==> v.timeStamp <= mv.timeStamp
    ensures Between([mv] + h, lo, hi)
  {
  }

  lemma AddAged(st: Store, clock: int, e: Event, exp: int)
    requires e.Add? && Aged(st, clock, exp) && Timely(st, clock, e, exp) && exp > 0
    ensures Aged(Step(st, e, exp), e.now, exp)
    ensures AllBetween(Step(st, e, exp).contents, e.now - exp - exp / 2, e.now)
  {
    var p := PruneStep(st, e.now, exp);
    PruneAged(st, clock, e.now, exp);
    var n := Step(st, e, exp);
    var lo1, lo2 := n.nextPrune - exp / 2 - exp, e.now - exp - exp / 2;
    forall id, k
      ensures Between(HistoryOf(n.contents, id, k), lo1, e.now) && Between(HistoryOf(n.contents, id, k), lo2, e.now)
    {
      var h := HistoryOf(p.contents, id, k);
      assert Between(h, lo1, e.now) && Between(h, lo2, e.now);
      HistoryConsed(p.contents, e.mv, id, k);
      if id == e.mv.id && k == KeyOf(e.mv) {
        HistoryPruned(st.contents, e.now - exp, id, k);
        assert forall v :: v in h ==> v in HistoryOf(st.contents, id, k);
        ConsBetween(h, e.mv, lo1, e.now);
        ConsBetween(h, e.mv, lo2, e.now);
      }
    }
  }

  /** In every run: all histories stay sorted, and right after an addition at `now` nothing held is older
      than one and a half expiration intervals. */
  lemma {:induction false} BoundedAge(es: seq<Event>, exp: int)
    requires exp > 0 && TimelyRun(es, exp)
    ensures Aged(Run(es, exp), Clock(es), exp)
    ensures es != [] && es[|es| - 1].Add? ==>
      forall id, k, v :: v in HistoryOf(Run(es, exp).contents, id, k) ==> v.timeStamp > Clock(es) - exp - exp / 2
  {
    if es != [] {
      var init, e := es[..|es| - 1], es[|es| - 1];
      BoundedAge(init, exp);
      if e.Add? {
        AddAged(Run(init, exp), Clock(init), e, exp);
        forall id, k, v | v in HistoryOf(Run(es, exp).contents, id, k) ensures v.timeStamp > e.now - exp - exp / 2 {
          assert Between(HistoryOf(Run(es, exp).contents, id, k), e.now - exp - exp / 2, e.now);
        }
      } else {
        assert AllBetween(Run(es, exp).contents, Run(es, exp).nextPrune - exp / 2 - exp, Clock(es));
      }
    }
  }

  lemma AgedPrune(st: Store, clock: int, exp: int, now: int, id: int, k: ResKey)
    requires Aged(st, clock, exp) && st.nextPrune < now
    ensures HistoryOf(PruneStep(st, now, exp).contents, id, k) == NewerThan(HistoryOf(st.contents, id, k), now - exp)
  {
    assert Between(HistoryOf(st.contents, id, k), st.nextPrune - exp / 2 - exp, clock);
    PrunedHistory(st, now, exp, id, k);
  }

  /** A prune at `now` in any such run drops exactly the values stamped at or before `now - exp`. */
  lemma PruneDropsOnlyExpired(es: seq<Event>, exp: int, now: int, id: int, k: ResKey)
    requires exp > 0 && TimelyRun(es, exp) && Run(es, exp).nextPrune < now
    ensures var held := Run(es, exp);
      HistoryOf(PruneStep(held, now, exp).contents, id, k) == NewerThan(HistoryOf(held.contents, id, k), now - exp)
  {
    BoundedAge(es, exp);
    AgedPrune(Run(es, exp), Clock(es), exp, now, id, k);
  }

  /** Values stamped when they are added, under a clock that does not run backwards. */
  ghost predicate StampedAtAdd(es: seq<Event>) {
    forall i :: 0 <= i < |es| && es[i].Add? ==> es[i].mv.timeStamp == es[i].now && Clock(es[..i]) <= es[i].now
  }

  lemma {:induction false} StampedIsTimely(es: seq<Event>, exp: int)
    requires exp > 0 && StampedAtAdd(es)
    ensures TimelyRun(es, exp)
  {
    if es != [] {
      var init, e := es[..|es| - 1], es[|es| - 1];
      assert forall i :: 0 <= i < |init| ==> init[..i] == es[..i];
      StampedIsTimely(init, exp);
      BoundedAge(init, exp);
      if e.Add? {
        var st := Run(init, exp);
        assert Between(HistoryOf(st.contents, e.mv.id, KeyOf(e.mv)), st.nextPrune - exp / 2 - exp, Clock(init));
      }
    }
  }
}
