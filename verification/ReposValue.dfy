/** Value queries: metric calculation over retrieved histories, and the top-N filter (repos.c). */
module ReposValue {
  import opened CBytes
  import opened TopN
  import opened Compare
  import opened History
  import opened Repository
  import opened LocalRepository

  const MD_CALCULATED: bv16 := 0x0002
  const MD_INTERVAL: bv16 := 0x0200
  const MD_RATE: bv16 := 0x0800
  const MD_AVERAGE: bv16 := 0x1000

  /** What a metric calculator reports, and what it leaves in the value buffer. */
  datatype Computed = Computed(ok: bool, buffer: seq<byte>)

  /** A metric calculator.  It is partial, so every call below proves that the samples it is given are acceptable. */
  type Calculator = Values --> Computed

  datatype MetricDef = MetricDef(aliasId: int, metricType: bv16, dataType: bv16, compute: Calculator)

  predicate UsesIntervals(d: MetricDef) {
    Has(d.metricType, MD_INTERVAL) || Has(d.metricType, MD_RATE) || Has(d.metricType, MD_AVERAGE)
  }

  /** Samples a rate can be computed from: the time from the last to the first is not zero. */
  predicate Computable(vs: Values) {
    |vs| >= 2 && vs[0].timeStamp > vs[|vs| - 1].timeStamp
  }

  /** An interval calculator need only cope with computable samples. */
  ghost predicate IntervalCalculator(compute: Calculator) {
    forall vs :: Computable(vs) ==> compute.requires(vs)
  }

  /** A point calculator copes with single samples. */
  ghost predicate PointCalculator(compute: Calculator) {
    forall v :: compute.requires([v])
  }

  const ZERO_VALUE: seq<byte> := [0, 0, 0, 0, 0, 0, 0, 0]

  /** The value an interval metric yields for one resource, if it yields one. */
  function IntervalSlot(vs: Values, compute: Calculator): Option<ValueItem>
    requires |vs| >= 2 && (vs[0].timeStamp != vs[1].timeStamp ==> compute.requires(vs))
  {
    var last := vs[|vs| - 1];
    var value := if vs[0].timeStamp == vs[1].timeStamp then Computed(true, ZERO_VALUE) else compute(vs);
    if !value.ok then None
    else
      Some(ValueItem(vs[0].timeStamp, vs[0].timeStamp - last.timeStamp, value.buffer, Some(last.resource),
                     Some(last.systemId)))
  }

  ghost predicate AllSorted(mv: seq<Values>) {
    forall j :: 0 <= j < |mv| ==> NewestFirst(mv[j])
  }

  /** In resource order, the slots of the resources that have at least two samples and whose calculation succeeds. */
  ghost function IntervalItems(mv: seq<Values>, compute: Calculator): (r: seq<ValueItem>)
    requires AllSorted(mv) && IntervalCalculator(compute)
    ensures |r| <= |mv|
  {
    if mv == [] then []
    else
      var vs := mv[|mv| - 1];
      var rest := IntervalItems(mv[..|mv| - 1], compute);
      if |vs| < 2 then rest
      else
        var slot := IntervalSlot(vs, compute);
        if slot.Some? then rest + [slot.value] else rest
  }

  /** The slot filled for sample `i`, whether or not its calculation succeeds. */
  ghost function PointItem(vs: Values, i: nat, compute: Calculator): ValueItem
    requires i < |vs| && PointCalculator(compute)
  {
    ValueItem(vs[i].timeStamp, 0, compute([vs[i]]).buffer, Some(vs[|vs| - 1].resource), Some(vs[i].systemId))
  }

  ghost function PointItemsOf(vs: Values, compute: Calculator): (r: seq<ValueItem>)
    requires PointCalculator(compute)
    ensures |r| == |vs|
  {
    seq(|vs|, i requires 0 <= i < |vs| => PointItem(vs, i, compute))
  }

  /** Which samples of a resource yield a value. */
  ghost function Successes(vs: Values, compute: Calculator): (s: seq<bool>)
    requires PointCalculator(compute)
    ensures |s| == |vs| && forall i :: 0 <= i < |vs| ==> s[i] == compute([vs[i]]).ok
  {
    seq(|vs|, i requires 0 <= i < |vs| => compute([vs[i]]).ok)
  }

  /** The slots retained for a resource: as many leading ones as calculations succeeded. */
  ghost function PointSlots(vs: Values, compute: Calculator): (r: seq<ValueItem>)
    requires PointCalculator(compute)
    ensures |r| == CountTrue(Successes(vs, compute)) <= |vs|
  {
    PointItemsOf(vs, compute)[..CountTrue(Successes(vs, compute))]
  }

  /** Resource by resource, the slots retained. */
  ghost function PointItems(mv: seq<Values>, compute: Calculator): (r: seq<ValueItem>)
    requires PointCalculator(compute)
  {
    if mv == [] then [] else PointItems(mv[..|mv| - 1], compute) + PointSlots(mv[|mv| - 1], compute)
  }

  /** No sample without a value is followed by one with a value. */
  ghost predicate FailuresLast(vs: Values, compute: Calculator)
    requires PointCalculator(compute)
  {
    forall i, j :: 0 <= i < j < |vs| && compute([vs[j]]).ok ==> compute([vs[i]]).ok
  }

  /** What a retained slot says: when, and for which resource, a value was taken, and what became of it. */
  lemma PointSlotMeaning(vs: Values, i: nat, compute: Calculator)
    requires PointCalculator(compute) && i < |PointSlots(vs, compute)|
    ensures var item := PointSlots(vs, compute)[i];
      && item.captureTime == vs[i].timeStamp && item.duration == 0 && item.value == compute([vs[i]]).buffer
      && item.resource == Some(vs[|vs| - 1].resource) && item.systemId == Some(vs[i].systemId)
  {
  }

  /** Behind the slots of the resources before it come those of resource `j`. */
  lemma {:induction false} PointsInResourceOrder(mv: seq<Values>, j: nat, compute: Calculator)
    requires PointCalculator(compute) && j < |mv|
    ensures PointItems(mv[..j], compute) + PointSlots(mv[j], compute) <= PointItems(mv, compute)
  {
    if j == |mv| - 1 {
      assert mv[..j] == mv[..|mv| - 1];
    } else {
      assert mv[..|mv| - 1][..j] == mv[..j];
      PointsInResourceOrder(mv[..|mv| - 1], j, compute);
    }
  }

  /** All slots retained for a resource hold computed values exactly if its failures come last; otherwise a failed slot
      stays and a computed value is lost. */
  lemma PointSlotsComputedIff(vs: Values, compute: Calculator)
    requires PointCalculator(compute)
    ensures (forall i :: 0 <= i < |PointSlots(vs, compute)| ==> compute([vs[i]]).ok) <==> FailuresLast(vs, compute)
    ensures !FailuresLast(vs, compute) ==> exists j :: |PointSlots(vs, compute)| <= j < |vs| && compute([vs[j]]).ok
  {
    var s := Successes(vs, compute);
    CountedFirstIff(s);
    if FailuresLast(vs, compute) {
      assert forall i, j :: 0 <= i < j < |s| && s[j] ==> s[i];
    } else {
      var i, j :| 0 <= i < j < |vs| && compute([vs[j]]).ok && !compute([vs[i]]).ok;
      assert s[j] && !s[i];
      if forall k :: CountTrue(s) <= k < |s| ==> !s[k] {
        CountBelow(s, CountTrue(s), i);
      }
    }
  }

  /** With every success among the first `n` and a failure there, there are fewer than `n` successes. */
  lemma {:induction false} CountBelow(s: seq<bool>, n: nat, i: nat)
    requires n <= |s| && (forall k :: n <= k < |s| ==> !s[k])
    ensures CountTrue(s) <= n && (i < n && !s[i] ==> CountTrue(s) < n)
  {
    if n < |s| {
      CountBelow(s[..|s| - 1], n, i);
    } else if n > 0 {
      CountBelow(s[..n - 1], n - 1, i);
    }
  }

  /** A failed sample before a successful one: its slot is returned in place of the value. */
  lemma PointHole(v: MetricValue, w: MetricValue, compute: Calculator)
    requires PointCalculator(compute) && !compute([v]).ok && compute([w]).ok
    ensures PointSlots([v, w], compute) == [PointItem([v, w], 0, compute)]
  {
    var s := Successes([v, w], compute);
    assert s == [false, true] && [false, true][..1] == [false] && [false][..0] == [];
    assert CountTrue([false]) == 0;
  }

  function Usable(mv: seq<Values>): nat {
    if mv == [] then 0 else Usable(mv[..|mv| - 1]) + (if |mv[|mv| - 1]| >= 2 then 1 else 0)
  }

  /** What the repository returns for a query over sorted histories. */
  function Fetched(rList: seq<ResourceEntry>, from: Time, to: Time, maxnum: int): seq<Values> {
    seq(|rList|, i requires 0 <= i < |rList| => Labelled(Expected(rList[i].value, from, to, maxnum), rList[i].key))
  }

  lemma FetchedSorted(rList: seq<ResourceEntry>, from: Time, to: Time, maxnum: int)
    requires forall i :: 0 <= i < |rList| ==> NewestFirst(rList[i].value)
    ensures AllSorted(Fetched(rList, from, to, maxnum))
  {
    forall i | 0 <= i < |rList| ensures NewestFirst(Fetched(rList, from, to, maxnum)[i]) {
      ExpectedSorted(rList[i].value, from, to, maxnum);
    }
  }

  /** The number of samples per resource that a query asks of the repository; 0 for all of them. */
  function SamplesWanted(d: MetricDef, from: Time, to: Time, num: int): int {
    if UsesIntervals(d) then (if from == to then 2 else 0) else if num > 0 then num else 0
  }

  /** What a query asks of the repository and of the calculator of its metric. */
  ghost predicate CanAsk(c: Contents, def: Option<MetricDef>, id: int, resource: Option<CString>,
                         systemId: Option<CString>, from: Time)
  {
    def.Some? ==>
      (Supported(def.value) && SortedMetric(c, RepositoryId(id, def.value))
       && Retrievable(c, RepositoryId(id, def.value), from, resource, systemId))
  }

  /** Is there a calculable metric with stored values behind a query? */
  ghost predicate CanAnswer(c: Contents, def: Option<MetricDef>, id: int, from: Time) {
    def.Some? && from >= 0 && RepositoryId(id, def.value) in c
  }

  /** Counts the resources with at least two samples, striking out the others. */
  method StrikeOut(mv: seq<Values>, numv0: seq<int>) returns (numv: seq<int>, count: int)
    requires |numv0| == |mv| && forall j :: 0 <= j < |mv| ==> numv0[j] == |mv[j]|
    ensures |numv| == |mv| && forall k :: 0 <= k < |mv| ==> numv[k] == if |mv[k]| < 2 then 0 else |mv[k]|
    ensures count == Usable(mv)
  {
    numv := numv0;
    count := |mv|;
    var j := 0;
    while j < |mv|
      invariant 0 <= j <= |mv| == |numv|
      invariant forall k :: 0 <= k < |mv| ==> numv[k] == if k < j && |mv[k]| < 2 then 0 else |mv[k]|
      invariant count == |mv| - j + Usable(mv[..j])
    {
      assert mv[..j + 1][..j] == mv[..j];
      if numv[j] < 2 {
        numv := numv[j := 0];
      }
      if numv[j] == 0 {
        count := count - 1;
      }
      j := j + 1;
    }
    assert mv[..j] == mv;
  }

  lemma IntervalItemsStep(mv: seq<Values>, j: nat, compute: Calculator)
    requires AllSorted(mv) && IntervalCalculator(compute) && j < |mv|
    ensures |mv[j]| >= 2 && mv[j][0].timeStamp != mv[j][1].timeStamp ==> compute.requires(mv[j])
    ensures IntervalItems(mv[..j + 1], compute) == IntervalItems(mv[..j], compute)
      + if |mv[j]| >= 2 && IntervalSlot(mv[j], compute).Some? then [IntervalSlot(mv[j], compute).value] else []
    ensures Usable(mv[..j + 1]) == Usable(mv[..j]) + (if |mv[j]| >= 2 then 1 else 0)
    ensures Usable(mv[..j + 1]) <= Usable(mv)
  {
    assert mv[..j + 1][..j] == mv[..j];
    assert NewestFirst(mv[j]);
    UsableMonotone(mv, j + 1);
  }

  /** Fills one slot per sample and counts the successes. */
  method FillSlots(slots: array<ValueItem>, actnum: nat, vs: Values, num: int, compute: Calculator)
    returns (validnum: nat)
    requires PointCalculator(compute) && num == |vs| && actnum + num <= slots.Length
    modifies slots
    ensures validnum == CountTrue(Successes(vs, compute))
    ensures slots[..actnum] == old(slots[..actnum])
    ensures slots[actnum..actnum + num] == PointItemsOf(vs, compute)
  {
    ghost var oks := Successes(vs, compute);
    validnum := 0;
    var i := 0;
    while i < num
      invariant 0 <= i <= num && validnum == CountTrue(oks[..i])
      invariant slots[..actnum] == old(slots[..actnum])
      invariant forall k :: 0 <= k < i ==> slots[actnum + k] == PointItem(vs, k, compute)
    {
      CountNext(oks, i);
      var v := compute([vs[i]]);
      slots[actnum + i] := ValueItem(vs[i].timeStamp, 0, v.buffer, Some(vs[num - 1].resource), Some(vs[i].systemId));
      if v.ok {
        validnum := validnum + 1;
      }
      i := i + 1;
    }
    assert oks[..i] == oks;
  }

  lemma FirstSlots<T>(s: seq<T>, n: nat, slots: seq<T>, k: nat)
    requires n <= |s| && k <= |slots| && |s| == n + |slots|
    ensures s[n..] == slots ==> s[..n + k] == s[..n] + slots[..k]
  {
  }

  class ValueRequest {
    const vsId: int
    const vsResource: Option<CString>
    const vsSystemId: Option<CString>
    const vsFrom: Time
    const vsTo: Time
    var vsDataType: bv16
    var vsNumValues: int
    var vsValues: array<ValueItem>

    constructor (id: int, resource: Option<CString>, systemId: Option<CString>, from: Time, to: Time, num: int)
      ensures vsId == id && vsResource == resource && vsSystemId == systemId && vsFrom == from && vsTo == to
      ensures vsDataType == 0 && vsNumValues == num && vsValues.Length == 0 && fresh(vsValues)
    {
      vsId, vsResource, vsSystemId, vsFrom, vsTo := id, resource, systemId, from, to;
      vsDataType, vsNumValues := 0, num;
      vsValues := new ValueItem[0];
    }

    function IntervalNum(d: MetricDef): int
      reads this
    {
      SamplesWanted(d, vsFrom, vsTo, vsNumValues)
    }

    /** Fills slot `actnum` for one resource; the slot counts only if `ok`. */
    method ComputeSlot(actnum: nat, vs: Values, num: int, compute: Calculator) returns (ok: bool)
      requires actnum < vsValues.Length && num == |vs| >= 2
      requires vs[0].timeStamp != vs[1].timeStamp ==> compute.requires(vs)
      modifies vsValues
      ensures vsValues[..actnum] == old(vsValues[..actnum])
      ensures ok <==> IntervalSlot(vs, compute).Some?
      ensures ok ==> vsValues[actnum] == IntervalSlot(vs, compute).value
    {
      var last := vs[num - 1];
      var item := ValueItem(vs[0].timeStamp, vs[0].timeStamp - last.timeStamp, [], Some(last.resource),
                            Some(last.systemId));
      vsValues[actnum] := item;
      if vs[0].timeStamp == vs[1].timeStamp {
        vsValues[actnum] := item.(value := ZERO_VALUE);
        ok := true;
      } else {
        var v := compute(vs);
        ok := v.ok;
        vsValues[actnum] := item.(value := v.buffer);
      }
    }

    /** The interval branch.  Every call of the calculator is on computable samples. */
    method ComputeIntervals(mv: seq<Values>, numv0: seq<int>, compute: Calculator)
      requires AllSorted(mv) && IntervalCalculator(compute)
      requires |numv0| == |mv| && forall j :: 0 <= j < |mv| ==> numv0[j] == |mv[j]|
      modifies this`vsNumValues, this`vsValues
      ensures fresh(vsValues) && 0 <= vsNumValues <= vsValues.Length
      ensures vsValues[..vsNumValues] == IntervalItems(mv, compute)
    {
      var numv;
      numv, vsNumValues := StrikeOut(mv, numv0);
      vsValues := new ValueItem[vsNumValues];
      var actnum, j := 0, 0;
      while j < |mv|
        invariant 0 <= j <= |mv|
        invariant fresh(vsValues) && vsValues.Length == Usable(mv)
        invariant 0 <= actnum <= Usable(mv[..j]) <= Usable(mv)
        invariant vsNumValues - actnum == Usable(mv) - Usable(mv[..j])
        invariant vsValues[..actnum] == IntervalItems(mv[..j], compute)
      {
        IntervalItemsStep(mv, j, compute);
        if numv[j] != 0 {
          var ok := ComputeSlot(actnum, mv[j], numv[j], compute);
          if ok {
            actnum := actnum + 1;
          } else {
            vsNumValues := vsNumValues - 1;
          }
        }
        j := j + 1;
      }
      assert mv[..j] == mv;
    }

    /** The point branch: slots for all samples of a resource, of which those of the next one may overwrite the last. */
    method ComputePoints(mv: seq<Values>, numv: seq<int>, totalnum: int, compute: Calculator)
      requires PointCalculator(compute) && totalnum == Sum(numv)
      requires |numv| == |mv| && forall j :: 0 <= j < |mv| ==> numv[j] == |mv[j]|
      modifies this`vsNumValues, this`vsValues
      ensures fresh(vsValues) && 0 <= vsNumValues <= vsValues.Length
      ensures vsValues[..vsNumValues] == PointItems(mv, compute)
    {
      PointsStart(mv, numv, compute);
      vsNumValues := totalnum;
      vsValues := new ValueItem[vsNumValues];
      var actnum, j := 0, 0;
      while j < |mv|
        invariant 0 <= j <= |mv| && 0 <= actnum <= vsValues.Length
        invariant fresh(vsValues) && vsValues.Length == totalnum
        invariant PointsDone(mv, numv, j, compute, vsValues[..actnum], vsNumValues)
      {
        PointsNext(mv, numv, j, compute, vsValues[..actnum], vsNumValues);
        var validnum := FillPoints(actnum, mv[j], numv[j], compute);
        actnum := actnum + validnum;
        j := j + 1;
      }
      assert mv[..j] == mv && numv[..j] == numv;
    }

    /** The samples of one resource; each failure lowers the number of values, but keeps its slot. */
    method FillPoints(actnum: nat, vs: Values, num: int, compute: Calculator) returns (validnum: nat)
      requires PointCalculator(compute) && num == |vs| && actnum + num <= vsValues.Length
      modifies this`vsNumValues, vsValues
      ensures validnum == CountTrue(Successes(vs, compute)) && vsNumValues == old(vsNumValues) - (num - validnum)
      ensures vsValues[..actnum + validnum] == old(vsValues[..actnum]) + PointSlots(vs, compute)
    {
      validnum := FillSlots(vsValues, actnum, vs, num, compute);
      vsNumValues := vsNumValues - (num - validnum);
      ghost var s := vsValues[..actnum + num];
      assert s[..actnum + validnum] == vsValues[..actnum + validnum] && s[..actnum] == vsValues[..actnum];
      assert s[actnum..] == vsValues[actnum..actnum + num];
      FirstSlots(s, actnum, PointItemsOf(vs, compute), validnum);
    }

    ghost predicate Askable(c: Contents, def: Option<MetricDef>) {
      CanAsk(c, def, vsId, vsResource, vsSystemId, vsFrom)
    }

    ghost predicate Answerable(c: Contents, def: Option<MetricDef>) {
      CanAnswer(c, def, vsId, vsFrom)
    }

    /** `reposvalue_get`: the resources addressed, in order, and their computed values. */
    method ReposValueGet(repo: LocalRepository, def: Option<MetricDef>)
      returns (rc: int, ghost rList: seq<ResourceEntry>)
      requires repo.Valid() && Askable(ContentsOf(repo.header), def)
      modifies this
      ensures Answerable(ContentsOf(repo.header), def) ==>
        Queried(ContentsOf(repo.header), RepositoryId(vsId, def.value), vsResource, vsSystemId, rList)
      ensures rc == if Answerable(ContentsOf(repo.header), def)
        && Result(def.value, rList, vsFrom, vsTo, old(IntervalNum(def.value))) != [] then 0 else -1
      ensures rc == 0 ==> fresh(vsValues) && 0 < vsNumValues <= vsValues.Length && vsDataType == def.value.dataType
      ensures rc == 0 ==> vsValues[..vsNumValues] == Result(def.value, rList, vsFrom, vsTo, old(IntervalNum(def.value)))
      ensures rc == 0 && def.value.metricType & 2 == 0 ==>
        Queried(ContentsOf(repo.header), vsId, vsResource, vsSystemId, rList)
      ensures rc == 0 && def.value.metricType & 2 != 0 ==>
        Queried(ContentsOf(repo.header), def.value.aliasId, vsResource, vsSystemId, rList)
    {
      rc, rList := -1, [];
      if def.None? {
        return;
      }
      var d := def.value;
      var intervalnum := IntervalNum(d);
      var totalnum, rs, mv, numv :=
        repo.LocalMetricRetrieve(RepositoryId(vsId, d), vsResource, vsSystemId, vsFrom, vsTo, intervalnum);
      rList := rs;
      if totalnum != -1 {
        SortedResources(ContentsOf(repo.header), RepositoryId(vsId, d), rs);
        FetchedSorted(rs, vsFrom, vsTo, intervalnum);
        AnswersFetched(rs, vsFrom, vsTo, intervalnum, mv, numv);
        if UsesIntervals(d) {
          ComputeIntervals(mv, numv, d.compute);
        } else {
          ComputePoints(mv, numv, totalnum, d.compute);
        }
        vsDataType := d.dataType;
        if vsNumValues > 0 {
          rc := 0;
        }
      }
    }

    method SortValues(ascending: bool, fl: FloatReader)
      requires 0 < vsNumValues <= vsValues.Length
      requires vsNumValues <= 10 || NoNaN(vsDataType, fl, multiset(vsValues[..vsNumValues]))
      modifies vsValues
      ensures Sorts(By(vsDataType, ascending, fl), old(vsValues[..]), vsValues[..], 0, vsNumValues - 1)
    {
      assert vsValues[0..vsNumValues] == vsValues[..vsNumValues];
      SaneIff(vsDataType, ascending, fl, multiset(vsValues[..vsNumValues]));
      Mqsort(vsValues, 0, vsNumValues - 1, By(vsDataType, ascending, fl));
    }

    /** Sorts the values and keeps the first `num` if there are more than that. */
    method SortAndStrip(num: nat, ascending: bool, fl: FloatReader)
      requires 0 < num && 0 < vsNumValues <= vsValues.Length
      requires Comparable(vsDataType, fl, vsValues[..vsNumValues], num)
      modifies this`vsNumValues, vsValues
      ensures vsNumValues == Min(num, old(vsNumValues))
      ensures if old(vsNumValues) <= num then vsValues[..] == old(vsValues[..])
        else Filtered(By(vsDataType, ascending, fl), old(vsValues[..vsNumValues]), vsValues[..num],
                      vsValues[num..old(vsNumValues)])
    {
      if vsNumValues > num {
        ghost var all := vsValues[..];
        SortValues(ascending, fl);
        SortedFiltered(By(vsDataType, ascending, fl), all, vsValues[..], vsNumValues, num);
        assert vsValues[..][..num] == vsValues[..num] && vsValues[..][num..vsNumValues] == vsValues[num..vsNumValues];
        assert all[..vsNumValues] == old(vsValues[..vsNumValues]);
        vsNumValues := num;
      }
    }

    /** `reposvalue_getfiltered`: the first `num` values in the requested direction. */
    method ReposValueGetFiltered(repo: LocalRepository, def: Option<MetricDef>, num: nat, ascending: bool,
                                 fl: FloatReader)
      returns (rc: int, ghost rList: seq<ResourceEntry>, ghost dropped: seq<ValueItem>)
      requires repo.Valid() && Askable(ContentsOf(repo.header), def)
      requires Filterable(ContentsOf(repo.header), def, vsId, vsResource, vsSystemId, vsFrom, vsTo, vsNumValues, num,
                          fl)
      modifies this
      ensures num > 0 && Answerable(ContentsOf(repo.header), def) ==>
        Queried(ContentsOf(repo.header), RepositoryId(vsId, def.value), vsResource, vsSystemId, rList)
      ensures rc == if num > 0 && Answerable(ContentsOf(repo.header), def)
        && Result(def.value, rList, vsFrom, vsTo, old(IntervalNum(def.value))) != [] then 0 else -1
      ensures rc == 0 ==> 0 < vsNumValues <= vsValues.Length
      ensures rc == 0 ==> TopOf(By(def.value.dataType, ascending, fl),
        Result(def.value, rList, vsFrom, vsTo, old(IntervalNum(def.value))), num, vsValues[..vsNumValues], dropped)
    {
      rc, rList, dropped := -1, [], [];
      if num > 0 {
        var got;
        got, rList := ReposValueGet(repo, def);
        if got == 0 {
          ghost var n, items := vsNumValues, vsValues[..vsNumValues];
          SortAndStrip(num, ascending, fl);
          if n > num {
            dropped := vsValues[num..n];
          }
          assert n <= num ==> vsValues[..][..n] == items;
          rc := 0;
        }
      }
    }
  }

  /** What the sort needs where it is made and begins with a partition: that no value is a NaN. */
  ghost predicate Comparable(type_: bv16, fl: FloatReader, items: seq<ValueItem>, num: nat) {
    |items| <= num || |items| <= 10 || NoNaN(type_, fl, multiset(items))
  }

  /** What a filtered query yields can be sorted. */
  ghost predicate Filterable(c: Contents, def: Option<MetricDef>, id: int, resource: Option<CString>,
                             systemId: Option<CString>, from: Time, to: Time, samples: int, num: nat, fl: FloatReader)
    requires CanAsk(c, def, id, resource, systemId, from)
  {
    CanAnswer(c, def, id, from) ==>
      forall rList :: Queried(c, RepositoryId(id, def.value), resource, systemId, rList) ==>
        Comparable(def.value.dataType, fl,
                   Result(def.value, rList, from, to, SamplesWanted(def.value, from, to, samples)), num)
  }

  /** `kept` is all of `items` if there are at most `num`, else `num` of them that come first under `c`. */
  ghost predicate TopOf<T>(c: Comparator<T>, items: seq<T>, num: nat, kept: seq<T>, dropped: seq<T>) {
    if |items| <= num then kept == items && dropped == [] else |kept| == num && Filtered(c, items, kept, dropped)
  }

  /** The metric whose values a calculated metric is made of, or the metric itself. */
  function RepositoryId(vsId: int, d: MetricDef): int {
    if Has(d.metricType, MD_CALCULATED) then d.aliasId else vsId
  }

  ghost predicate Supported(d: MetricDef) {
    if UsesIntervals(d) then IntervalCalculator(d.compute) else PointCalculator(d.compute)
  }

  ghost predicate SortedMetric(c: Contents, id: int) {
    forall k :: NewestFirst(HistoryOf(c, id, k))
  }

  ghost predicate Queried(c: Contents, id: int, resource: Option<CString>, system: Option<CString>,
                          rList: seq<ResourceEntry>) {
    id in c && Serves(rList, c[id], resource, system) && forall i :: 0 <= i < |rList| ==> NewestFirst(rList[i].value)
  }

  lemma SortedResources(c: Contents, id: int, rList: seq<ResourceEntry>)
    requires SortedMetric(c, id) && id in c
    requires forall i :: 0 <= i < |rList| ==> rList[i].key in c[id] && c[id][rList[i].key] == rList[i].value
    ensures forall i :: 0 <= i < |rList| ==> NewestFirst(rList[i].value)
  {
    assert forall i :: 0 <= i < |rList| ==> HistoryOf(c, id, rList[i].key) == rList[i].value;
  }

  lemma AnswersFetched(rList: seq<ResourceEntry>, from: Time, to: Time, maxnum: int, mv: seq<Values>, num: seq<int>)
    requires Answers(rList, from, to, maxnum, mv, num)
    requires forall i :: 0 <= i < |rList| ==> NewestFirst(rList[i].value)
    ensures mv == Fetched(rList, from, to, maxnum)
  {
    forall i | 0 <= i < |rList| ensures mv[i] == Fetched(rList, from, to, maxnum)[i] {
      AnswerKnown(rList[i], from, to, maxnum, mv[i]);
    }
  }

  /** The values a query computes. */
  ghost function Result(d: MetricDef, rList: seq<ResourceEntry>, from: Time, to: Time, maxnum: int): seq<ValueItem>
    requires Supported(d) && forall i :: 0 <= i < |rList| ==> NewestFirst(rList[i].value)
  {
    FetchedSorted(rList, from, to, maxnum);
    var mv := Fetched(rList, from, to, maxnum);
    if UsesIntervals(d) then IntervalItems(mv, d.compute) else PointItems(mv, d.compute)
  }

  /** `kept` and `dropped` share out `items`; if the comparator is a preorder on them, `kept` is in order and
      nothing dropped precedes anything kept. */
  ghost predicate Filtered<T>(c: Comparator<T>, items: seq<T>, kept: seq<T>, dropped: seq<T>) {
    && multiset(kept) + multiset(dropped) == multiset(items)
    && (PreorderOn(c, multiset(items)) ==>
          Sorted(c, kept) && forall i, j :: 0 <= i < |kept| && 0 <= j < |dropped| ==> c(kept[i], dropped[j]) <= 0)
  }

  lemma SortedFiltered<T>(c: Comparator<T>, s: seq<T>, t: seq<T>, n: nat, num: nat)
    requires num <= n && 0 < n <= |s| && Sorts(c, s, t, 0, n - 1)
    ensures Filtered(c, s[..n], t[..num], t[num..n])
  {
    RangeMultiset(s, t, 0, n);
    assert t[0..n] == t[..num] + t[num..n] && s[0..n] == s[..n];
    if PreorderOn(c, multiset(s[..n])) {
      assert Sorted(c, t[0..n]);
      forall i, j | 0 <= i < num && 0 <= j < n - num ensures c(t[..num][i], t[num..n][j]) <= 0 {
        assert t[..num][i] == t[0..n][i] && t[num..n][j] == t[0..n][num + j];
      }
      forall i, j | 0 <= i < j < num ensures c(t[..num][i], t[..num][j]) <= 0 {
        assert t[..num][i] == t[0..n][i] && t[..num][j] == t[0..n][j];
      }
    }
  }

  /** The slots retained so far leave room for the samples to come. */
  lemma {:induction false} PointRoom(mv: seq<Values>, numv: seq<int>, compute: Calculator, j: nat)
    requires PointCalculator(compute) && j <= |mv| == |numv|
    requires forall k :: 0 <= k < |mv| ==> numv[k] == |mv[k]|
    ensures |PointItems(mv[..j], compute)| <= Sum(numv[..j]) <= Sum(numv)
  {
    SumMonotone(numv, j);
    if j > 0 {
      assert mv[..j][..j - 1] == mv[..j - 1] && numv[..j][..j - 1] == numv[..j - 1];
      PointRoom(mv, numv, compute, j - 1);
    }
  }

  lemma {:induction false} SumMonotone(numv: seq<int>, j: nat)
    requires j <= |numv| && forall k :: 0 <= k < |numv| ==> numv[k] >= 0
    ensures 0 <= Sum(numv[..j]) <= Sum(numv)
    decreases |numv|
  {
    if j < |numv| {
      assert numv[..|numv| - 1][..j] == numv[..j];
      SumMonotone(numv[..|numv| - 1], j);
    } else {
      assert numv[..j] == numv;
      if j > 0 {
        SumMonotone(numv[..j - 1], j - 1);
        assert numv[..j - 1][..j - 1] == numv[..j - 1];
      }
    }
  }

  ghost predicate Counts(mv: seq<Values>, numv: seq<int>) {
    |numv| == |mv| && forall k :: 0 <= k < |mv| ==> numv[k] == |mv[k]|
  }

  /** After `j` resources: the slots retained, and `left`, the number of values there will be if no more fail. */
  ghost predicate PointsDone(mv: seq<Values>, numv: seq<int>, j: nat, compute: Calculator, slots: seq<ValueItem>,
                             left: int)
    requires PointCalculator(compute)
  {
    && Counts(mv, numv) && j <= |mv| && slots == PointItems(mv[..j], compute)
    && left == Sum(numv) - Sum(numv[..j]) + |slots|
  }

  lemma PointsStart(mv: seq<Values>, numv: seq<int>, compute: Calculator)
    requires PointCalculator(compute) && Counts(mv, numv)
    ensures 0 <= Sum(numv) && PointsDone(mv, numv, 0, compute, [], Sum(numv))
  {
    PointRoom(mv, numv, compute, 0);
    assert mv[..0] == [] && numv[..0] == [];
  }

  lemma PointsNext(mv: seq<Values>, numv: seq<int>, j: nat, compute: Calculator, slots: seq<ValueItem>, left: int)
    requires PointCalculator(compute) && j < |mv| && PointsDone(mv, numv, j, compute, slots, left)
    ensures |slots| + numv[j] <= Sum(numv)
    ensures var more := PointSlots(mv[j], compute);
      PointsDone(mv, numv, j + 1, compute, slots + more, left - (numv[j] - |more|))
  {
    assert mv[..j + 1][..j] == mv[..j] && numv[..j + 1][..j] == numv[..j];
    PointRoom(mv, numv, compute, j);
    PointRoom(mv, numv, compute, j + 1);
  }

  lemma {:induction false} UsableMonotone(mv: seq<Values>, j: nat)
    requires j <= |mv|
    ensures Usable(mv[..j]) <= Usable(mv)
  {
    if j < |mv| {
      assert mv[..|mv| - 1][..j] == mv[..j];
      UsableMonotone(mv[..|mv| - 1], j);
    } else {
      assert mv[..j] == mv;
    }
  }

  /** For integer metrics whose values differ pairwise by reliable amounts, top-N follows the numbers, in the direction
      the comparator follows. */
  lemma TopReliable(type_: bv16, asc: bool, fl: FloatReader, items: seq<ValueItem>, num: nat,
                    kept: seq<ValueItem>, dropped: seq<ValueItem>)
    requires KindOf(type_).Integer? && |items| > num && TopOf(By(type_, asc, fl), items, num, kept, dropped)
    requires forall x, y :: x in items && y in items ==> ReliablePair(type_, x, y)
    ensures NumericallySorted(type_, Followed(type_, asc), kept)
    ensures forall x, y :: x in kept && y in dropped ==> InOrder(type_, Followed(type_, asc), x, y)
  {
    var m, d := multiset(items), Followed(type_, asc);
    ReliablePreorder(type_, asc, fl, m);
    FromItems(items, kept, dropped);
    forall i, j | 0 <= i < j < |kept| ensures InOrder(type_, d, kept[i], kept[j]) {
      ReliableCompare(type_, asc, fl, kept[i], kept[j]);
    }
    forall x, y | x in kept && y in dropped ensures InOrder(type_, d, x, y) {
      ReliableCompare(type_, asc, fl, x, y);
    }
  }

  lemma FromItems<T>(items: seq<T>, kept: seq<T>, dropped: seq<T>)
    requires multiset(kept) + multiset(dropped) == multiset(items)
    ensures forall x :: x in kept || x in dropped ==> x in items
  {
    forall x | x in kept || x in dropped ensures x in items {
      assert x in multiset(kept) + multiset(dropped);
    }
  }

  /** For integer metrics whose values are pairwise sortable, top-N is numeric in the requested direction. */
  lemma TopNumeric(type_: bv16, asc: bool, fl: FloatReader, items: seq<ValueItem>, num: nat,
                   kept: seq<ValueItem>, dropped: seq<ValueItem>)
    requires KindOf(type_).Integer? && |items| > num && TopOf(By(type_, asc, fl), items, num, kept, dropped)
    requires forall x, y :: x in items && y in items ==> SortablePair(type_, x, y)
    ensures NumericallySorted(type_, asc, kept)
    ensures forall x, y :: x in kept && y in dropped ==> InOrder(type_, asc, x, y)
  {
    if type_ == MD_BOOL {
      FromItems(items, kept, dropped);
      forall x, y | (x in kept || x in dropped) && (y in kept || y in dropped) ensures InOrder(type_, asc, x, y) {
        assert SortablePair(type_, x, y);
      }
    } else {
      assert forall x, y :: x in items && y in items ==> SortablePair(type_, x, y) == ReliablePair(type_, x, y);
      TopReliable(type_, asc, fl, items, num, kept, dropped);
    }
  }

  /** For all other metrics top-N follows the order of the type, if no value is a NaN. */
  lemma TopOthers(type_: bv16, asc: bool, fl: FloatReader, items: seq<ValueItem>, num: nat,
                  kept: seq<ValueItem>, dropped: seq<ValueItem>)
    requires !KindOf(type_).Integer? && |items| > num && TopOf(By(type_, asc, fl), items, num, kept, dropped)
    requires NoNaN(type_, fl, multiset(items))
    ensures TypeSorted(type_, asc, fl, kept)
    ensures forall x, y :: x in kept && y in dropped ==> Arranged(type_, asc, fl, x, y)
  {
    OthersPreorder(type_, asc, fl, multiset(items));
    FromItems(items, kept, dropped);
    forall i, j | 0 <= i < j < |kept| ensures Arranged(type_, asc, fl, kept[i], kept[j]) {
      OthersCompare(type_, asc, fl, kept[i], kept[j]);
    }
    forall x, y | x in kept && y in dropped ensures Arranged(type_, asc, fl, x, y) {
      OthersCompare(type_, asc, fl, x, y);
    }
  }

  /** The values have an order that the comparator respects. */
  ghost predicate Orderly(type_: bv16, fl: FloatReader, items: seq<ValueItem>) {
    if KindOf(type_).Integer? then forall x, y :: x in items && y in items ==> SortablePair(type_, x, y)
    else NoNaN(type_, fl, multiset(items))
  }

  /** What a client means by one value coming before another: numbers by size, other values by their type. */
  ghost predicate Requested(type_: bv16, asc: bool, fl: FloatReader, x: ValueItem, y: ValueItem) {
    if KindOf(type_).Integer? then InOrder(type_, asc, x, y) else Arranged(type_, asc, fl, x, y)
  }

  /** `kept` are the top `num` values of `items` in the requested order; sorted, if any were dropped. */
  ghost predicate TopRequested(type_: bv16, asc: bool, fl: FloatReader, items: seq<ValueItem>, num: nat,
                               kept: seq<ValueItem>, dropped: seq<ValueItem>) {
    && multiset(kept) + multiset(dropped) == multiset(items) && |kept| == Min(num, |items|)
    && (|items| > num ==> forall i, j :: 0 <= i < j < |kept| ==> Requested(type_, asc, fl, kept[i], kept[j]))
    && forall x, y :: x in kept && y in dropped ==> Requested(type_, asc, fl, x, y)
  }

  lemma TopInOrder(type_: bv16, asc: bool, fl: FloatReader, items: seq<ValueItem>, num: nat,
                   kept: seq<ValueItem>, dropped: seq<ValueItem>)
    requires TopOf(By(type_, asc, fl), items, num, kept, dropped) && Orderly(type_, fl, items)
    ensures TopRequested(type_, asc, fl, items, num, kept, dropped)
  {
    if |items| > num {
      if KindOf(type_).Integer? {
        TopNumeric(type_, asc, fl, items, num, kept, dropped);
      } else {
        TopOthers(type_, asc, fl, items, num, kept, dropped);
      }
    }
  }

  /** The slots come from the resources at positions `at`: in order, and each resource with a value has one. */
  ghost predicate SlotsFrom(mv: seq<Values>, n: nat, compute: Calculator, items: seq<ValueItem>, at: seq<nat>) {
    && n <= |mv| && |at| == |items|
    && (forall k :: 0 <= k < |at| ==> at[k] < n && SlotOf(mv[at[k]], compute, items[k]))
    && (forall k, l :: 0 <= k < l < |at| ==> at[k] < at[l])
    && (forall j :: 0 <= j < n && Yields(mv[j], compute) ==> j in at)
  }

  /** Two samples or more, with equal newest time stamps or a successful calculation. */
  ghost predicate Yields(vs: Values, compute: Calculator) {
    |vs| >= 2 && (vs[0].timeStamp == vs[1].timeStamp || (compute.requires(vs) && compute(vs).ok))
  }

  ghost predicate SlotOf(vs: Values, compute: Calculator, item: ValueItem) {
    && Yields(vs, compute)
    && item.captureTime == vs[0].timeStamp
    && item.duration == vs[0].timeStamp - vs[|vs| - 1].timeStamp >= 0
    && (vs[0].timeStamp == vs[1].timeStamp ==> item.value == [0, 0, 0, 0, 0, 0, 0, 0])
    && (vs[0].timeStamp > vs[1].timeStamp ==> compute.requires(vs) && item.value == compute(vs).buffer)
    && item.resource == Some(vs[|vs| - 1].resource) && item.systemId == Some(vs[|vs| - 1].systemId)
  }

  lemma IntervalSlotMeaning(mv: seq<Values>, j: nat, compute: Calculator)
    requires AllSorted(mv) && IntervalCalculator(compute) && j < |mv| && |mv[j]| >= 2
    ensures mv[j][0].timeStamp != mv[j][1].timeStamp ==> compute.requires(mv[j])
    ensures IntervalSlot(mv[j], compute).Some? <==> Yields(mv[j], compute)
    ensures IntervalSlot(mv[j], compute).Some? ==> SlotOf(mv[j], compute, IntervalSlot(mv[j], compute).value)
  {
    assert NewestFirst(mv[j]);
  }

  lemma {:induction false} SlotsInResourceOrder(mv: seq<Values>, n: nat, compute: Calculator) returns (at: seq<nat>)
    requires IntervalCalculator(compute) && AllSorted(mv) && n <= |mv|
    ensures SlotsFrom(mv, n, compute, IntervalItems(mv[..n], compute), at)
  {
    at := [];
    if n > 0 {
      at := SlotsInResourceOrder(mv, n - 1, compute);
      at := NextSlot(mv, n - 1, compute, at);
    }
  }

  lemma NextSlot(mv: seq<Values>, j: nat, compute: Calculator, at: seq<nat>) returns (more: seq<nat>)
    requires IntervalCalculator(compute) && AllSorted(mv) && j < |mv|
    requires SlotsFrom(mv, j, compute, IntervalItems(mv[..j], compute), at)
    ensures SlotsFrom(mv, j + 1, compute, IntervalItems(mv[..j + 1], compute), more)
  {
    var items := IntervalItems(mv[..j], compute);
    more := at;
    IntervalItemsStep(mv, j, compute);
    if |mv[j]| >= 2 {
      IntervalSlotMeaning(mv, j, compute);
    }
    if Yields(mv[j], compute) {
      more := at + [j];
      OneMoreSlot(mv, j, compute, items, at, IntervalSlot(mv[j], compute).value);
    } else {
      NoSlot(mv, j, compute, items, at);
    }
  }

  lemma OneMoreSlot(mv: seq<Values>, j: nat, compute: Calculator, items: seq<ValueItem>, at: seq<nat>, item: ValueItem)
    requires SlotsFrom(mv, j, compute, items, at) && j < |mv| && SlotOf(mv[j], compute, item)
    ensures SlotsFrom(mv, j + 1, compute, items + [item], at + [j])
  {
  }

  lemma NoSlot(mv: seq<Values>, j: nat, compute: Calculator, items: seq<ValueItem>, at: seq<nat>)
    requires SlotsFrom(mv, j, compute, items, at) && j < |mv| && !Yields(mv[j], compute)
    ensures SlotsFrom(mv, j + 1, compute, items, at)
  {
  }
}
