/** The repository and its readers together: what has just been added is what a query finds first (mreposl.c,
    repos.c). */
module NewestValue {
  import opened CBytes
  import opened Compare
  import opened History
  import opened Repository
  import opened LocalRepository
  import opened RepositoryRuns
  import opened ReposValue

  /** Nothing held for the resource of a value is newer than it, and nothing was stamped before the epoch. */
  ghost predicate Newest(c: Contents, mv: MetricValue) {
    && SortedMetric(c, mv.id) && mv.timeStamp >= 0
    && forall v :: v in HistoryOf(c, mv.id, ResKey(mv.resource, mv.systemId)) ==> 0 <= v.timeStamp <= mv.timeStamp
  }

  /** The addition puts the value in front of the unexpired part of its history. */
  lemma AddedInFront(st: Store, mv: MetricValue, now: int, exp: int) returns (h: Values)
    requires Newest(st.contents, mv)
    ensures h == HistoryOf(AddStep(st, mv, now, exp).contents, mv.id, ResKey(mv.resource, mv.systemId))
    ensures h != [] && h[0] == mv && h[1..] <= HistoryOf(st.contents, mv.id, ResKey(mv.resource, mv.systemId))
    ensures NewestFirst(h) && forall v :: v in h ==> v.timeStamp >= 0
    ensures st.nextPrune >= now ==> h[1..] == HistoryOf(st.contents, mv.id, ResKey(mv.resource, mv.systemId))
  {
    var k, p := ResKey(mv.resource, mv.systemId), PruneStep(st, now, exp);
    HistoryConsed(p.contents, mv, mv.id, k);
    HistoryPruned(st.contents, now - exp, mv.id, k);
    h := [mv] + HistoryOf(p.contents, mv.id, k);
    assert h[1..] == HistoryOf(p.contents, mv.id, k);
    assert NewestFirst(HistoryOf(st.contents, mv.id, k));
  }

  /** It keeps the metric sorted. */
  lemma AddKeepsSorted(st: Store, mv: MetricValue, now: int, exp: int)
    requires Newest(st.contents, mv)
    ensures SortedMetric(AddStep(st, mv, now, exp).contents, mv.id)
  {
    forall k ensures NewestFirst(HistoryOf(AddStep(st, mv, now, exp).contents, mv.id, k)) {
      assert NewestFirst(HistoryOf(st.contents, mv.id, k));
      HistoryPruned(st.contents, now - exp, mv.id, k);
      HistoryConsed(PruneStep(st, now, exp).contents, mv, mv.id, k);
      if k == ResKey(mv.resource, mv.systemId) {
        var _ := AddedInFront(st, mv, now, exp);
      }
    }
  }

  /** Queries without a start and an end begin with the newest value. */
  lemma FromTheNewest(h: Values)
    requires NewestFirst(h) && forall v :: v in h ==> v.timeStamp >= 0
    ensures Expected(h, 0, 0, 0) == if |h| > INT_MAX then h[..INT_MAX] else h
    ensures Expected(h, 0, 0, 2) == if |h| > 2 then h[..2] else h
  {
    WindowSlice(h, 0, LONG_MAX, 0, |h|);
  }

  /** A query that names resource and system addresses no other resource. */
  lemma OneServed(rList: seq<ResourceEntry>, m: map<ResKey, Values>, k: ResKey)
    requires Serves(rList, m, Some(k.resource), Some(k.system)) && k in m
    ensures rList == [Entry(k, m[k])]
  {
    AscendingDistinct(rList);
    assert |rList| < 2 || rList[0].key != rList[1].key;
    assert Addressed(m, Some(k.resource), Some(k.system), k);
    forall i | 0 <= i < |rList| ensures rList[i] == Entry(k, m[k]) {
      assert HasKey(rList, rList[i].key);
      assert Addressed(m, Some(k.resource), Some(k.system), rList[i].key);
    }
    assert HasKey(rList, k);
  }

  /** A stored value as a query returns it, labelled with its resource. */
  function Named(v: MetricValue, k: ResKey): MetricValue { v.(resource := k.resource, systemId := k.system) }

  /** A point metric (none of the bits 0x1A00) whose calculator copes with single samples. */
  ghost predicate PointMetric(d: MetricDef) {
    d.metricType & 0x1A00 == 0 && PointCalculator(d.compute) && forall v :: d.compute([v]).ok
  }

  /** A query for one resource yields one value for each sample of the window, up to `num` if that is positive. */
  lemma PointValues(d: MetricDef, k: ResKey, h: Values, from: Time, to: Time, num: int)
    requires PointMetric(d) && NewestFirst(h)
    ensures Supported(d)
    ensures var e := Expected(h, from, to, num);
      var r := Result(d, [Entry(k, h)], from, to, SamplesWanted(d, from, to, num));
      && |r| == |e|
      && forall i :: 0 <= i < |r| ==>
        r[i] == ValueItem(e[i].timeStamp, 0, d.compute([Named(e[i], k)]).buffer, Some(k.resource), Some(k.system))
  {
    assert !UsesIntervals(d) by {
      PointBits(d.metricType);
    }
    var vs := Labelled(Expected(h, from, to, num), k);
    assert Fetched([Entry(k, h)], from, to, SamplesWanted(d, from, to, num)) == [vs];
    OneResourcePoints(vs, d.compute);
  }

  lemma OneResourcePoints(vs: Values, compute: Calculator)
    requires PointCalculator(compute) && forall v :: compute([v]).ok
    ensures PointItems([vs], compute) == PointItemsOf(vs, compute)
  {
    CountOfPrefix(Successes(vs, compute), |vs|);
    assert [vs][..0] == [] && PointItems([], compute) == [];
    assert PointSlots(vs, compute) == PointItemsOf(vs, compute);
  }

  lemma PointBits(type_: bv16)
    requires type_ & 0x1A00 == 0
    ensures type_ & 0x0200 == 0 && type_ & 0x0800 == 0 && type_ & 0x1000 == 0
  {
  }

  /** Without a start and an end the newest value comes first. */
  lemma NewestPoint(d: MetricDef, k: ResKey, h: Values)
    requires PointMetric(d) && NewestFirst(h) && h != [] && forall v :: v in h ==> v.timeStamp >= 0
    ensures Supported(d)
    ensures var r := Result(d, [Entry(k, h)], 0, 0, SamplesWanted(d, 0, 0, 0));
      r != [] && r[0]
        == ValueItem(h[0].timeStamp, 0, d.compute([Named(h[0], k)]).buffer, Some(k.resource), Some(k.system))
  {
    PointValues(d, k, h, 0, 0, 0);
    FromTheNewest(h);
  }

  /** An interval metric, a rate or an average (one of the bits 0x0200, 0x0800, 0x1000). */
  ghost predicate IntervalMetric(d: MetricDef) {
    && (d.metricType & 0x0200 != 0 || d.metricType & 0x0800 != 0 || d.metricType & 0x1000 != 0)
    && IntervalCalculator(d.compute) && forall vs :: Computable(vs) ==> d.compute(vs).ok
  }

  /** The samples that an interval metric is made of: two for a moment, else all of the window. */
  function Interval(h: Values, from: Time, to: Time): Values {
    Expected(h, from, to, if from == to then 2 else 0)
  }

  /** A query for one resource yields one value if there are two samples, made of them all; zero if the newest two bear
      the same time stamp. */
  lemma IntervalValue(d: MetricDef, k: ResKey, h: Values, from: Time, to: Time, num: int)
    requires IntervalMetric(d) && NewestFirst(h)
    ensures Supported(d)
    ensures var e := Interval(h, from, to); var last := |e| - 1;
      var r := Result(d, [Entry(k, h)], from, to, SamplesWanted(d, from, to, num));
      if |e| < 2 then r == []
      else
        && |r| == 1 && r[0].captureTime == e[0].timeStamp && r[0].duration == e[0].timeStamp - e[last].timeStamp
        && r[0].resource == Some(k.resource) && r[0].systemId == Some(k.system)
        && (e[0].timeStamp == e[1].timeStamp ==> r[0].value == [0, 0, 0, 0, 0, 0, 0, 0])
        && (e[0].timeStamp != e[1].timeStamp ==>
              d.compute.requires(Labelled(e, k)) && r[0].value == d.compute(Labelled(e, k)).buffer)
  {
    var vs := Labelled(Interval(h, from, to), k);
    ExpectedSorted(h, from, to, if from == to then 2 else 0);
    assert Fetched([Entry(k, h)], from, to, SamplesWanted(d, from, to, num)) == [vs];
    OneResourceInterval(vs, d.compute);
  }

  lemma OneResourceInterval(vs: Values, compute: Calculator)
    requires NewestFirst(vs) && IntervalCalculator(compute) && (Computable(vs) ==> compute(vs).ok)
    ensures |vs| < 2 ==> IntervalItems([vs], compute) == []
    ensures |vs| >= 2 && vs[0].timeStamp != vs[1].timeStamp ==> compute.requires(vs)
    ensures |vs| >= 2 ==>
      IntervalSlot(vs, compute).Some? && IntervalItems([vs], compute) == [IntervalSlot(vs, compute).value]
  {
    assert [vs][..0] == [] && IntervalItems([], compute) == [];
  }

  /** After an addition, a query for its metric and resource begins with the value added.  A calculated metric (with
      bit 2) is queried under its own id, and made of the values of its alias. */
  method AddAndQuery(repo: LocalRepository, mv: MetricValue, now: int, id: int, d: MetricDef)
    returns (rc: int, vs: ValueRequest)
    requires repo.Valid() && Newest(ContentsOf(repo.header), mv) && PointMetric(d)
    requires if d.metricType & 2 == 0 then id == mv.id else d.aliasId == mv.id
    modifies repo
    ensures rc == 0 && 0 < vs.vsNumValues <= vs.vsValues.Length
    ensures vs.vsValues[0]
      == ValueItem(mv.timeStamp, 0, d.compute([mv]).buffer, Some(mv.resource), Some(mv.systemId))
  {
    ghost var st, exp := repo.Snapshot(), ClampExpiration(repo.configured);
    ghost var k := ResKey(mv.resource, mv.systemId);
    repo.LocalMetricAdd(mv, now);
    AddKeepsSorted(st, mv, now, exp);
    ghost var h := AddedInFront(st, mv, now, exp);
    ghost var c := ContentsOf(repo.header);
    vs := new ValueRequest(id, Some(mv.resource), Some(mv.systemId), 0, 0, 0);
    ghost var rList;
    NewestPoint(d, k, h);
    rc, rList := vs.ReposValueGet(repo, Some(d));
    OneServed(rList, c[mv.id], k);
    assert vs.vsValues[..vs.vsNumValues][0] == vs.vsValues[0];
  }

  /** With a predecessor and no prune due, a query for an interval metric measures the time between the two. */
  method AddAndMeasure(repo: LocalRepository, mv: MetricValue, now: int, id: int, d: MetricDef, ghost w: MetricValue)
    returns (rc: int, vs: ValueRequest)
    requires repo.Valid() && Newest(ContentsOf(repo.header), mv) && IntervalMetric(d)
    requires if d.metricType & 2 == 0 then id == mv.id else d.aliasId == mv.id
    requires now <= repo.nextPrune
    requires [w] <= HistoryOf(ContentsOf(repo.header), mv.id, ResKey(mv.resource, mv.systemId))
    modifies repo
    ensures rc == 0 && vs.vsNumValues == 1 <= vs.vsValues.Length
    ensures vs.vsValues[0].captureTime == mv.timeStamp && vs.vsValues[0].duration == mv.timeStamp - w.timeStamp
  {
    ghost var st, exp := repo.Snapshot(), ClampExpiration(repo.configured);
    ghost var k := ResKey(mv.resource, mv.systemId);
    repo.LocalMetricAdd(mv, now);
    AddKeepsSorted(st, mv, now, exp);
    ghost var h := AddedInFront(st, mv, now, exp);
    assert h[1] == h[1..][0] == w;
    ghost var c := ContentsOf(repo.header);
    vs := new ValueRequest(id, Some(mv.resource), Some(mv.systemId), 0, 0, 0);
    ghost var rList;
    FromTheNewest(h);
    IntervalValue(d, k, h, 0, 0, 0);
    rc, rList := vs.ReposValueGet(repo, Some(d));
    OneServed(rList, c[mv.id], k);
    assert vs.vsValues[..vs.vsNumValues][0] == vs.vsValues[0];
  }
}
