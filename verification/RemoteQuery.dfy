/** A filtered value query from the client through the daemon and its repository, and back (rrepos.c, reposd.c,
    repos.c). */
module RemoteQuery {
  import opened CBytes
  import opened TopN
  import opened Compare
  import opened History
  import opened Repository
  import opened LocalRepository
  import opened ReposValue
  import opened Wire
  import opened Marshal
  import opened Response
  import opened Exchange

  // ----- numbers and strings on the wire -----

  const TWO_63: int := 0x8000_0000_0000_0000
  const TWO_64: int := 0x1_0000_0000_0000_0000

  function TimeWord(t: Time): Word64 { if t < 0 then t + TWO_64 else t }

  function TimeOf(w: nat): (t: Time) {
    var m := w % TWO_64;
    if m < TWO_63 then m else m - TWO_64
  }

  lemma TimeRoundTrip(t: Time)
    ensures TimeOf(TimeWord(t)) == t
  {
  }

  function IntWord(i: Int32): Word32 { if i < 0 then i + TWO_32 else i }

  lemma IntRoundTrip(i: Int32)
    ensures ToInt32(IntWord(i)) == i
  {
  }

  function Sent(s: Option<CString>): (p: CStr)
    ensures p.Text() == s
  {
    if s.None? then Null else Ptr(1, s.value)
  }

  predicate IsTime(x: int) { -TWO_63 <= x < TWO_63 }

  // ----- values on the wire -----

  function ToItem(v: ValueItem): Item
    requires IsTime(v.duration)
  {
    Item(TimeWord(v.captureTime), TimeWord(v.duration), 1, v.value, Sent(v.resource), Sent(v.systemId))
  }

  function FromView(v: ItemView): ValueItem {
    ValueItem(TimeOf(v.captureTime), TimeOf(v.duration), v.value, v.resource, v.systemId)
  }

  lemma ItemRoundTrip(v: ValueItem)
    requires IsTime(v.duration)
    ensures FromView(ToItem(v).View()) == v
  {
    TimeRoundTrip(v.captureTime);
    TimeRoundTrip(v.duration);
  }

  ghost predicate AllTimes(vs: seq<ValueItem>) {
    forall i :: 0 <= i < |vs| ==> IsTime(vs[i].duration)
  }

  function ToItems(vs: seq<ValueItem>): (items: seq<Item>)
    requires forall i :: 0 <= i < |vs| ==> IsTime(vs[i].duration)
    ensures |items| == |vs| && forall i :: 0 <= i < |vs| ==> items[i] == ToItem(vs[i])
  {
    if vs == [] then [] else [ToItem(vs[0])] + ToItems(vs[1..])
  }

  function FromViews(views: seq<ItemView>): seq<ValueItem> {
    if views == [] then [] else [FromView(views[0])] + FromViews(views[1..])
  }

  lemma {:induction false} ItemsRoundTrip(vs: seq<ValueItem>)
    requires AllTimes(vs)
    ensures FromViews(Views(ToItems(vs))) == vs
  {
    if vs != [] {
      var rest := vs[1..];
      ItemsRoundTrip(rest);
      ItemRoundTrip(vs[0]);
      assert ToItems(vs)[1..] == ToItems(rest);
      FromViewsCons(ToItem(vs[0]).View(), Views(ToItems(rest)));
    }
  }

  lemma FromViewsCons(v: ItemView, views: seq<ItemView>)
    ensures FromViews([v] + views) == [FromView(v)] + FromViews(views)
  {
    assert ([v] + views)[1..] == views;
  }

  // ----- what a query finds can be sent -----

  /** The buffer that a calculator writes to. */
  const VALUE_BUFFER: nat := 100

  ghost predicate WithinBuffer(compute: Calculator) {
    forall vs :: compute.requires(vs) ==> |compute(vs).buffer| <= VALUE_BUFFER
  }

  predicate ShortKey(k: ResKey, names: nat) { |k.resource| + |k.system| <= names }

  /** All names fit, and nothing was stamped before the epoch. */
  ghost predicate Sendable(r: ResourceEntry, names: nat) {
    ShortKey(r.key, names) && forall v :: v in r.value ==> v.timeStamp >= 0
  }

  ghost predicate AllSendable(rList: seq<ResourceEntry>, names: nat) {
    forall i :: 0 <= i < |rList| ==> Sendable(rList[i], names)
  }

  /** A value that the daemon can send and the client can read. */
  ghost predicate Deliverable(v: ValueItem, names: nat) {
    && v.resource.Some? && v.systemId.Some? && |v.resource.value| + |v.systemId.value| <= names
    && |v.value| <= VALUE_BUFFER && IsTime(v.duration)
  }

  /** What the repository returns for one resource: labelled with its key, and not stamped before the epoch. */
  ghost predicate Fetches(vs: Values, names: nat) {
    && NewestFirst(vs) && (forall i :: 0 <= i < |vs| ==> vs[i].timeStamp >= 0)
    && exists k :: ShortKey(k, names) && Labels(vs, k)
  }

  ghost predicate Labels(vs: Values, k: ResKey) {
    forall i :: 0 <= i < |vs| ==> vs[i].resource == k.resource && vs[i].systemId == k.system
  }

  lemma {:induction false} FilterMembers<T>(s: seq<T>, p: T -> bool)
    ensures forall x :: x in Filter(s, p) ==> x in s
  {
    if s != [] {
      FilterMembers(s[1..], p);
      assert s == [s[0]] + s[1..];
    }
  }

  lemma ExpectedMembers(h: Values, from: Time, to: Time, maxnum: int)
    ensures forall v :: v in Expected(h, from, to, maxnum) ==> v in h
  {
    var (upTo, limit) := Effective(from, to, maxnum);
    FilterMembers(h, (v: MetricValue) => from <= v.timeStamp <= upTo);
    FilterMembers(h, (v: MetricValue) => v.timeStamp < from);
    var window, older := InWindow(h, from, upTo), OlderThan(h, from);
    assert forall v :: v in window ==> v in h;
    assert forall v :: v in older ==> v in h;
    assert forall v :: v in Limited(window, older, from, limit) ==> v in window || v in older;
  }

  lemma FetchedFetches(r: ResourceEntry, from: Time, to: Time, maxnum: int, names: nat)
    requires Sendable(r, names) && NewestFirst(r.value)
    ensures Fetches(Labelled(Expected(r.value, from, to, maxnum), r.key), names)
  {
    var e := Expected(r.value, from, to, maxnum);
    ExpectedMembers(r.value, from, to, maxnum);
    ExpectedSorted(r.value, from, to, maxnum);
    forall i | 0 <= i < |e| ensures e[i].timeStamp >= 0 {
      assert e[i] in e;
    }
    assert Labels(Labelled(e, r.key), r.key);
  }

  lemma IntervalDeliverable(vs: Values, compute: Calculator, names: nat)
    requires Fetches(vs, names) && |vs| >= 2 && (vs[0].timeStamp != vs[1].timeStamp ==> compute.requires(vs))
    requires WithinBuffer(compute)
    ensures IntervalSlot(vs, compute).Some? ==> Deliverable(IntervalSlot(vs, compute).value, names)
  {
  }

  lemma PointDeliverable(vs: Values, i: nat, compute: Calculator, names: nat)
    requires Fetches(vs, names) && i < |vs| && PointCalculator(compute) && WithinBuffer(compute)
    ensures Deliverable(PointItem(vs, i, compute), names)
  {
  }

  ghost predicate AllDeliverable(items: seq<ValueItem>, names: nat) {
    forall i :: 0 <= i < |items| ==> Deliverable(items[i], names)
  }

  lemma {:induction false} IntervalsDeliverable(mv: seq<Values>, n: nat, compute: Calculator, names: nat)
    requires AllSorted(mv) && IntervalCalculator(compute) && WithinBuffer(compute) && n <= |mv|
    requires forall j :: 0 <= j < |mv| ==> Fetches(mv[j], names)
    ensures AllDeliverable(IntervalItems(mv[..n], compute), names)
  {
    if n > 0 {
      IntervalsDeliverable(mv, n - 1, compute, names);
      IntervalItemsStep(mv, n - 1, compute);
      if |mv[n - 1]| >= 2 {
        IntervalDeliverable(mv[n - 1], compute, names);
      }
    }
  }

  lemma {:induction false} PointsDeliverable(mv: seq<Values>, n: nat, compute: Calculator, names: nat)
    requires PointCalculator(compute) && WithinBuffer(compute) && n <= |mv|
    requires forall j :: 0 <= j < |mv| ==> Fetches(mv[j], names)
    ensures AllDeliverable(PointItems(mv[..n], compute), names)
  {
    if n > 0 {
      PointsDeliverable(mv, n - 1, compute, names);
      var vs := mv[n - 1];
      assert mv[..n][..n - 1] == mv[..n - 1];
      forall i | 0 <= i < |vs| ensures Deliverable(PointItemsOf(vs, compute)[i], names) {
        PointDeliverable(vs, i, compute, names);
      }
      assert AllDeliverable(PointSlots(vs, compute), names);
    }
  }

  lemma ResultDeliverable(d: MetricDef, rList: seq<ResourceEntry>, from: Time, to: Time, maxnum: int, names: nat)
    requires Supported(d) && WithinBuffer(d.compute) && AllSendable(rList, names)
    requires forall i :: 0 <= i < |rList| ==> NewestFirst(rList[i].value)
    ensures AllDeliverable(Result(d, rList, from, to, maxnum), names)
  {
    FetchedSorted(rList, from, to, maxnum);
    var mv := Fetched(rList, from, to, maxnum);
    forall j | 0 <= j < |mv| ensures Fetches(mv[j], names) {
      FetchedFetches(rList[j], from, to, maxnum, names);
    }
    assert mv[..|mv|] == mv;
    if UsesIntervals(d) {
      IntervalsDeliverable(mv, |mv|, d.compute, names);
    } else {
      PointsDeliverable(mv, |mv|, d.compute, names);
    }
  }

  /** What is kept of deliverable values is deliverable. */
  lemma KeptDeliverable(c: Comparator<ValueItem>, items: seq<ValueItem>, num: nat, kept: seq<ValueItem>,
                        dropped: seq<ValueItem>, names: nat)
    requires TopOf(c, items, num, kept, dropped) && AllDeliverable(items, names)
    ensures AllDeliverable(kept, names) && |kept| <= num
  {
    if |items| > num {
      FromItems(items, kept, dropped);
      forall i | 0 <= i < |kept| ensures Deliverable(kept[i], names) {
        assert kept[i] in items;
      }
    }
  }

  // ----- the size of a reply -----

  /** An upper bound for struct and data of one value. */
  function ItemBound(names: nat): nat { SIZEOF_VALUEITEM + VALUE_BUFFER + names + 2 }

  lemma {:induction false} SizeBound(items: seq<Item>, m: nat)
    requires forall i :: 0 <= i < |items| ==> |items[i].Payload()| <= m
    ensures |Payloads(items)| <= m * |items|
  {
    if items != [] {
      SizeBound(items[1..], m);
      MoreRows(m, |items|);
    }
  }

  lemma {:induction false} Deliverables(vs: seq<ValueItem>, names: nat)
    requires AllDeliverable(vs, names)
    ensures AllTimes(vs) && AllComplete(ToItems(vs)) && AllRepresentable(ToItems(vs))
    ensures |Structs(ToItems(vs))| + |Payloads(ToItems(vs))| <= ItemBound(names) * |vs|
  {
    var items := ToItems(vs);
    Widths();
    forall i | 0 <= i < |items|
      ensures Complete(items[i]) && items[i].Representable() && |items[i].Payload()| <= VALUE_BUFFER + names + 2 {
      assert Deliverable(vs[i], names);
    }
    StructsSize(items);
    SizeBound(items, VALUE_BUFFER + names + 2);
    Distribute(SIZEOF_VALUEITEM, VALUE_BUFFER + names + 2, |vs|);
  }

  lemma Distribute(a: nat, b: nat, n: nat)
    ensures a * n + b * n == (a + b) * n
  {
  }

  // ----- the query -----

  /** A filtered query of a client. */
  datatype ClientQuery = ClientQuery(
    id: Int32, resource: Option<CString>, systemId: Option<CString>, from: Time, to: Time, num: Int32,
    filter: FilterParams)
  {
    function Words(): seq<nat> {
      [IntWord(id), 0, Sent(resource).Word(), Sent(systemId).Word(), TimeWord(from), TimeWord(to), 0, IntWord(num), 0]
    }
    function Query(): Query { QueryFor(Words(), Sent(resource), Sent(systemId), Some(filter)) }
  }

  lemma QueryWellFormed(cq: ClientQuery)
    ensures cq.Query().WellFormed() && |cq.Query().filter| == FILTER
  {
    Widths();
  }

  /** What the daemon should find: `rc` is 0 exactly if at least one value is wanted and the query yields one; then
      `kept` are the top values in the requested direction. */
  ghost predicate TopValues(c: Contents, def: Option<MetricDef>, cq: ClientQuery, fl: FloatReader, rc: int,
                            rList: seq<ResourceEntry>, kept: seq<ValueItem>, dropped: seq<ValueItem>)
    requires CanAsk(c, def, cq.id, cq.resource, cq.systemId, cq.from)
  {
    if cq.filter.num > 0 && CanAnswer(c, def, cq.id, cq.from) then
      && Queried(c, RepositoryId(cq.id, def.value), cq.resource, cq.systemId, rList)
      && var all := Result(def.value, rList, cq.from, cq.to, SamplesWanted(def.value, cq.from, cq.to, cq.num));
         if all == [] then rc == -1
         else rc == 0 && TopOf(By(def.value.dataType, cq.filter.ascending != 0, fl), all, cq.filter.num, kept, dropped)
    else rc == -1
  }

  /** What a filtered query asks of the daemon's repository and registry. */
  ghost predicate CanFilter(c: Contents, def: Option<MetricDef>, cq: ClientQuery, fl: FloatReader) {
    && CanAsk(c, def, cq.id, cq.resource, cq.systemId, cq.from)
    && Filterable(c, def, cq.id, cq.resource, cq.systemId, cq.from, cq.to, cq.num, cq.filter.num, fl)
  }

  /** If what the query yields has an order, the client gets the top values in that order. */
  ghost predicate TopForClient(c: Contents, def: Option<MetricDef>, cq: ClientQuery, fl: FloatReader,
                               rList: seq<ResourceEntry>, kept: seq<ValueItem>, dropped: seq<ValueItem>)
    requires CanAsk(c, def, cq.id, cq.resource, cq.systemId, cq.from)
  {
    && def.Some? && Queried(c, RepositoryId(cq.id, def.value), cq.resource, cq.systemId, rList)
    && var all := Result(def.value, rList, cq.from, cq.to, SamplesWanted(def.value, cq.from, cq.to, cq.num));
       Orderly(def.value.dataType, fl, all) ==>
         if cq.filter.ascending == 0 then TopRequested(def.value.dataType, false, fl, all, cq.filter.num, kept, dropped)
         else TopRequested(def.value.dataType, true, fl, all, cq.filter.num, kept, dropped)
  }

  lemma TopValuesInOrder(c: Contents, def: Option<MetricDef>, cq: ClientQuery, fl: FloatReader,
                         rList: seq<ResourceEntry>, kept: seq<ValueItem>, dropped: seq<ValueItem>)
    requires CanAsk(c, def, cq.id, cq.resource, cq.systemId, cq.from)
    requires TopValues(c, def, cq, fl, 0, rList, kept, dropped)
    ensures TopForClient(c, def, cq, fl, rList, kept, dropped)
  {
    var d := def.value;
    var all := Result(d, rList, cq.from, cq.to, SamplesWanted(d, cq.from, cq.to, cq.num));
    if Orderly(d.dataType, fl, all) {
      TopInOrder(d.dataType, cq.filter.ascending != 0, fl, all, cq.filter.num, kept, dropped);
    }
  }

  /** What the repository holds can be sent: names of bounded length, no time before the epoch. */
  ghost predicate SendableContents(c: Contents, names: nat) {
    forall id, k :: id in c && k in c[id] ==> Sendable(Entry(k, c[id][k]), names)
  }

  ghost predicate SendableMetric(def: Option<MetricDef>) {
    def.Some? ==> forall vs :: def.value.compute.requires(vs) ==> |def.value.compute(vs).buffer| <= 100
  }

  lemma QueriedSendable(c: Contents, id: int, resource: Option<CString>, systemId: Option<CString>,
                        rList: seq<ResourceEntry>, names: nat)
    requires Queried(c, id, resource, systemId, rList) && SendableContents(c, names)
    ensures AllSendable(rList, names)
  {
    forall i | 0 <= i < |rList| ensures Sendable(rList[i], names) {
      assert Sendable(Entry(rList[i].key, c[id][rList[i].key]), names);
    }
  }

  lemma KeptSendable(c: Contents, def: Option<MetricDef>, cq: ClientQuery, fl: FloatReader, rList: seq<ResourceEntry>,
                     kept: seq<ValueItem>, dropped: seq<ValueItem>, names: nat)
    requires CanAsk(c, def, cq.id, cq.resource, cq.systemId, cq.from)
    requires TopValues(c, def, cq, fl, 0, rList, kept, dropped) && SendableContents(c, names) && SendableMetric(def)
    ensures AllDeliverable(kept, names) && |kept| <= cq.filter.num
  {
    var d, wanted := def.value, SamplesWanted(def.value, cq.from, cq.to, cq.num);
    QueriedSendable(c, RepositoryId(cq.id, d), cq.resource, cq.systemId, rList, names);
    ResultDeliverable(d, rList, cq.from, cq.to, wanted, names);
    var all := Result(d, rList, cq.from, cq.to, wanted);
    KeptDeliverable(By(d.dataType, cq.filter.ascending != 0, fl), all, cq.filter.num, kept, dropped, names);
  }

  lemma Scaled(m: nat, a: nat, b: nat)
    requires a <= b
    ensures m * a <= m * b
  {
    assert m * b == m * a + m * (b - a);
  }

  /** The daemon runs the query it has received. */
  method Find(repo: LocalRepository, registry: int -> Option<MetricDef>, fl: FloatReader, cq: ClientQuery)
    returns (rc: int, dataType: nat, kept: seq<ValueItem>, ghost rList: seq<ResourceEntry>,
             ghost dropped: seq<ValueItem>)
    requires repo.Valid()
    requires CanFilter(ContentsOf(repo.header), registry(cq.id), cq, fl)
    ensures TopValues(ContentsOf(repo.header), registry(cq.id), cq, fl, rc, rList, kept, dropped)
    ensures rc == -1 ==> kept == [] && dataType == 0
    ensures rc != -1 ==> rc == 0 && registry(cq.id).Some? && dataType == registry(cq.id).value.dataType as nat
  {
    var vs := new ValueRequest(cq.id, cq.resource, cq.systemId, cq.from, cq.to, cq.num);
    var def := registry(cq.id);
    rc, rList, dropped := vs.ReposValueGetFiltered(repo, def, cq.filter.num, cq.filter.ascending != 0, fl);
    kept, dataType := [], 0;
    if rc == 0 {
      kept, dataType := vs.vsValues[..vs.vsNumValues], def.value.dataType as nat;
    }
  }

  /** What it has found fits into a reply. */
  method FindItems(repo: LocalRepository, registry: int -> Option<MetricDef>, fl: FloatReader, cq: ClientQuery,
                   ghost names: nat)
    returns (rc: int, dataType: Word32, items: seq<Item>,
             ghost kept: seq<ValueItem>, ghost rList: seq<ResourceEntry>, ghost dropped: seq<ValueItem>)
    requires repo.Valid() && SendableContents(ContentsOf(repo.header), names) && SendableMetric(registry(cq.id))
    requires CanFilter(ContentsOf(repo.header), registry(cq.id), cq, fl)
    ensures TopValues(ContentsOf(repo.header), registry(cq.id), cq, fl, rc, rList, kept, dropped) && rc in {0, -1}
    ensures rc == 0 ==> registry(cq.id).Some? && dataType == registry(cq.id).value.dataType as nat
    ensures AllTimes(kept) && items == ToItems(kept) && AllComplete(items) && AllRepresentable(items)
    ensures |items| <= cq.filter.num && |Structs(items)| + |Payloads(items)| <= ItemBound(names) * cq.filter.num
  {
    var type_, found;
    rc, type_, found, rList, dropped := Find(repo, registry, fl, cq);
    if rc == 0 {
      KeptSendable(ContentsOf(repo.header), registry(cq.id), cq, fl, rList, found, dropped, names);
    }
    kept := found;
    Deliverables(found, names);
    Scaled(ItemBound(names), |found|, cq.filter.num);
    dataType, items := type_, ToItems(found);
  }

  /** Reads the query back out of a received request. */
  method ReadQuery(daemon: Transfer, ghost cq: ClientQuery) returns (got: ClientQuery, w: seq<nat>, resourceLen: nat)
    requires daemon.Valid() && |cq.Query().Bytes()| < TWO_32
    requires daemon.Contents() == RequestHeader(cq.Query()).Bytes() + cq.Query().Bytes()
    modifies daemon`vi
    ensures daemon.vi == daemon.vp && got == cq && w == cq.Words()
  {
    ghost var q := cq.Query();
    ghost var comm := RequestHeader(q).Bytes();
    QueryWellFormed(cq);
    HeaderWords(RequestHeader(q));
    var resource, systemId;
    w, resource, systemId := daemon.Locate(true, comm, q);
    FilterBehind(cq, comm);
    var n, asc := daemon.ReadFilter(cq.filter.num, cq.filter.ascending, comm + Front(cq));
    resourceLen := TextLength(resource);
    TimeRoundTrip(cq.from);
    TimeRoundTrip(cq.to);
    IntRoundTrip(cq.id);
    IntRoundTrip(cq.num);
    got := ClientQuery(ToInt32(w[ID]), resource, systemId, TimeOf(w[FROM]), TimeOf(w[TO]), ToInt32(w[NUM_VALUES]),
                       FilterParams(n, asc));
  }

  /** A fresh buffer with a received request, and the query read from it. */
  method ReceiveQuery(request: seq<byte>, size: nat, address: (nat, nat) -> Addr, ghost cq: ClientQuery)
    returns (daemon: Transfer, got: ClientQuery, w: seq<nat>, resourceLen: nat)
    requires SIZEOF_COMM + |cq.Query().Bytes()| <= GATHERVALBUFLEN <= size
    requires request == RequestHeader(cq.Query()).Bytes() + cq.Query().Bytes()
    ensures fresh(daemon) && fresh(daemon.buffer) && daemon.Valid() && daemon.Contents() == request
    ensures daemon.vi == daemon.vp && got == cq && w == cq.Words()
  {
    HeaderWords(RequestHeader(cq.Query()));
    QueryWellFormed(cq);
    daemon := new Transfer(request, size, address);
    got, w, resourceLen := ReadQuery(daemon, cq);
  }

  /** The request up to its parameters. */
  function Front(cq: ClientQuery): seq<byte> {
    Pack(cq.Words(), REQUEST_WIDTHS) + (Sent(cq.resource).Bytes() + Sent(cq.systemId).Bytes())
  }

  lemma FilterBehind(cq: ClientQuery, comm: seq<byte>)
    ensures comm + cq.Query().Bytes() == (comm + Front(cq)) + cq.filter.Bytes()
  {
    var p, a, b, f := Pack(cq.Words(), REQUEST_WIDTHS), Sent(cq.resource).Bytes(), Sent(cq.systemId).Bytes(),
      cq.filter.Bytes();
    Regroup(a, b, f);
    Regroup(p, a + b, f);
    Regroup(comm, p + (a + b), f);
  }

  lemma Delivered(q: Query, rc: int, dataType: nat, items: seq<Item>)
    requires |q.words| == |REQUEST_WIDTHS| && rc in {0, -1}
    ensures var r := Delivery(q, rc, dataType, items, true);
      (r.Some? <==> rc == 0) && (r.Some? ==> r.value.items == Views(items) && r.value.dataType == dataType)
  {
  }

  /** The reply says what has been found: the values kept and their type, or nothing. */
  ghost predicate Tells(want: Option<Reply>, def: Option<MetricDef>, rc: int, kept: seq<ValueItem>) {
    && (want.None? <==> rc == -1)
    && (want.Some? ==> rc == 0 && def.Some? && AllTimes(kept))
    && (want.Some? ==> want.value.items == Views(ToItems(kept)) && want.value.dataType == def.value.dataType as nat)
  }

  /** The daemon's side: reads the query, runs it, and encodes what it has found. */
  method Answer(request: seq<byte>, repo: LocalRepository, registry: int -> Option<MetricDef>, fl: FloatReader,
                values: Word64, size: nat, address: (nat, nat) -> Addr, ghost cq: ClientQuery, ghost names: nat)
    returns (reply: seq<byte>, ghost h: Header, ghost want: Option<Reply>,
             ghost rc: int, ghost kept: seq<ValueItem>, ghost rList: seq<ResourceEntry>, ghost dropped: seq<ValueItem>)
    requires repo.Valid() && SendableContents(ContentsOf(repo.header), names) && SendableMetric(registry(cq.id))
    requires CanFilter(ContentsOf(repo.header), registry(cq.id), cq, fl)
    requires SIZEOF_COMM + |cq.Query().Bytes()| <= GATHERVALBUFLEN <= size
    requires request == RequestHeader(cq.Query()).Bytes() + cq.Query().Bytes()
    requires cq.filter.num <= INT_MAX && ItemBound(names) * cq.filter.num + GATHERVALBUFLEN < TWO_32
    ensures TopValues(ContentsOf(repo.header), registry(cq.id), cq, fl, rc, rList, kept, dropped)
    ensures ReadsAs(reply, h, |cq.Query().Tail()|, want) && Tells(want, registry(cq.id), rc, kept)
  {
    var daemon, got, w, resourceLen := ReceiveQuery(request, size, address, cq);
    var code, dataType, items;
    code, dataType, items, kept, rList, dropped := FindItems(repo, registry, fl, got, names);
    rc := code;
    reply, h, want := Conclude(daemon, w, resourceLen, code, dataType, items, values, cq);
  }

  /** Encodes what has been found. */
  method Conclude(daemon: Transfer, w: seq<nat>, resourceLen: nat, code: int, dataType: Word32, items: seq<Item>,
                  values: Word64, ghost cq: ClientQuery)
    returns (reply: seq<byte>, ghost h: Header, ghost want: Option<Reply>)
    requires daemon.Valid() && daemon.vi == daemon.vp && w == cq.Words() && code in {0, -1}
    requires |cq.Query().Bytes()| < TWO_32
    requires daemon.Contents() == RequestHeader(cq.Query()).Bytes() + cq.Query().Bytes()
    requires |items| <= INT_MAX && AllComplete(items) && AllRepresentable(items) && ReplyFits(cq.Query(), items)
    modifies daemon, daemon.buffer
    ensures ReadsAs(reply, h, |cq.Query().Tail()|, want)
    ensures (want.Some? <==> code == 0)
      && (want.Some? ==> want.value.items == Views(items) && want.value.dataType == dataType)
  {
    QueryWellFormed(cq);
    reply, h := Send(daemon, w, resourceLen, code, items, dataType, values, cq.Query());
    want := Delivery(cq.Query(), code, dataType, items, true);
    Delivered(cq.Query(), code, dataType, items);
  }

  /** The whole way: a client's filtered query returns, with their type, the top `num` values of what the daemon's
      repository yields for it, or an error exactly if no value is wanted or none is found. */
  method TopQuery(repo: LocalRepository, registry: int -> Option<MetricDef>, fl: FloatReader, cq: ClientQuery,
                  values: Word64, size: nat, address: (nat, nat) -> Addr, ghost names: nat)
    returns (got: Option<(nat, seq<ValueItem>)>, ghost rList: seq<ResourceEntry>, ghost dropped: seq<ValueItem>)
    requires repo.Valid() && SendableContents(ContentsOf(repo.header), names) && SendableMetric(registry(cq.id))
    requires CanFilter(ContentsOf(repo.header), registry(cq.id), cq, fl)
    requires 8 + |cq.Query().Bytes()| <= 10000 <= size
    requires cq.filter.num <= INT_MAX && (names + 150) * cq.filter.num + 10000 < TWO_32
    ensures TopValues(ContentsOf(repo.header), registry(cq.id), cq, fl, if got.Some? then 0 else -1, rList,
                      if got.Some? then got.value.1 else [], dropped)
    ensures got.Some? ==> registry(cq.id).Some? && got.value.0 == registry(cq.id).value.dataType as nat
    ensures got.Some? ==>
      TopForClient(ContentsOf(repo.header), registry(cq.id), cq, fl, rList, got.value.1, dropped)
  {
    var xbuf, len := ComposeRequest(cq.Words(), Sent(cq.resource), Sent(cq.systemId), Some(cq.filter));
    var reply;
    ghost var h, want, rc, kept;
    reply, h, want, rc, kept, rList, dropped :=
      Answer(xbuf[..len], repo, registry, fl, values, size, address, cq, names);
    SkipIsTail(cq.Words(), Sent(cq.resource), Sent(cq.systemId), Some(cq.filter));
    var r := Deliver(reply, ReplySkip(Sent(cq.resource), Sent(cq.systemId), true), h, want);
    got := None;
    if r.Some? {
      ItemsRoundTrip(kept);
      TopValuesInOrder(ContentsOf(repo.header), registry(cq.id), cq, fl, rList, kept, dropped);
      got := Some((r.value.dataType, FromViews(r.value.items)));
    }
  }
}
