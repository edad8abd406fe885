/** Marshalling of value requests, subscription requests and plugin definitions (marshal.c). */
module Marshal {
  import opened CBytes
  import opened Wire

  // ----- value items -----

  /** A result slot in the sender's memory; `valueAddr` 0 is a NULL value pointer. */
  datatype Item = Item(captureTime: Word64, duration: Word64, valueAddr: Word64, value: seq<byte>, resource: CStr,
                       systemId: CStr) {
    function Words(): seq<nat> { [captureTime, duration, |value|, valueAddr, resource.Word(), systemId.Word()] }
    function Payload(): seq<byte> { value + (resource.Bytes() + systemId.Bytes()) }
    function View(): ItemView { ItemView(captureTime, duration, value, resource.Text(), systemId.Text()) }
    ghost predicate Representable() { |value| < Pow256(8) }
  }

  /** What the receiver should see of an item. */
  datatype ItemView = ItemView(captureTime: nat, duration: nat, value: seq<byte>, resource: Option<CString>,
                               systemId: Option<CString>)

  const ITEM_WIDTHS: seq<nat> := [8, 8, 8, 8, 8, 8]

  function Structs(items: seq<Item>): seq<byte> {
    Rows(AllWords(items), ITEM_WIDTHS)
  }

  function Payloads(items: seq<Item>): seq<byte> {
    if items == [] then [] else items[0].Payload() + Payloads(items[1..])
  }

  function Views(items: seq<Item>): seq<ItemView> {
    if items == [] then [] else [items[0].View()] + Views(items[1..])
  }

  function AllWords(items: seq<Item>): (ws: seq<seq<nat>>)
    ensures |ws| == |items| && forall k :: 0 <= k < |ws| ==> |ws[k]| == 6
  {
    if items == [] then [] else [items[0].Words()] + AllWords(items[1..])
  }

  ghost predicate AllRepresentable(items: seq<Item>) {
    forall i :: 0 <= i < |items| ==> items[i].Representable()
  }

  function GetItem(w: seq<nat>, b: seq<byte>): (r: Option<(ItemView, seq<byte>)>)
    requires |w| == 6
    ensures r.Some? ==> |r.value.1| <= |b|
  {
    var (value, b1) :- GetData(b, w[2]);
    var (resource, b2) :- GetString(w[4], b1);
    var (systemId, b3) :- GetString(w[5], b2);
    Some((ItemView(w[0], w[1], value, resource, systemId), b3))
  }

  function GetItems(ws: seq<seq<nat>>, b: seq<byte>): (r: Option<(seq<ItemView>, seq<byte>)>)
    requires forall k :: 0 <= k < |ws| ==> |ws[k]| == 6
    ensures r.Some? ==> |r.value.0| == |ws| && |r.value.1| <= |b|
    decreases |ws|
  {
    if ws == [] then Some(([], b))
    else
      var (first, b1) :- GetItem(ws[0], b);
      var (rest, b2) :- GetItems(ws[1..], b1);
      Some(([first] + rest, b2))
  }

  lemma ItemSize()
    ensures Size(ITEM_WIDTHS) == 48
  {
    SizeOf6(8, 8, 8, 8, 8, 8);
  }

  lemma RequestSize()
    ensures Size(REQUEST_WIDTHS) == 56
  {
    SizeOf3(4, 4, 8);
    SizeOf6(8, 8, 8, 4, 4, 8);
    SizeSplit([4, 4, 8], [8, 8, 8, 4, 4, 8]);
    assert [4, 4, 8] + [8, 8, 8, 4, 4, 8] == REQUEST_WIDTHS;
  }

  lemma {:induction false} SizeSplit(a: seq<nat>, b: seq<nat>)
    ensures Size(a + b) == Size(a) + Size(b)
  {
    if a == [] {
      assert a + b == b;
    } else {
      assert (a + b)[1..] == a[1..] + b;
      SizeSplit(a[1..], b);
    }
  }

  lemma SizeOf3(a: nat, b: nat, c: nat)
    ensures Size([a, b, c]) == a + b + c
  {
    assert [a, b, c][1..] == [b, c] && [b, c][1..] == [c] && [c][1..] == [];
    assert Size([c]) == c;
    assert Size([b, c]) == b + Size([c]);
  }

  lemma SizeOf6(a: nat, b: nat, c: nat, d: nat, e: nat, f: nat)
    ensures Size([a, b, c, d, e, f]) == a + b + c + d + e + f
  {
    SizeOf3(a, b, c);
    SizeOf3(d, e, f);
    SizeSplit([a, b, c], [d, e, f]);
    assert [a, b, c] + [d, e, f] == [a, b, c, d, e, f];
  }

  lemma ItemFits(i: Item)
    requires i.Representable()
    ensures Fits(i.Words(), ITEM_WIDTHS)
  {
    Widths();
  }

  lemma {:induction false} ItemsFit(items: seq<Item>)
    requires AllRepresentable(items)
    ensures AllFit(AllWords(items), ITEM_WIDTHS)
  {
    if items != [] {
      ItemFits(items[0]);
      ItemsFit(items[1..]);
    }
  }

  lemma GetItemOf(i: Item, t: seq<byte>)
    ensures GetItem(i.Words(), i.Payload() + t) == Some((i.View(), t))
  {
    var s := i.systemId.Bytes() + t;
    var u := i.resource.Bytes() + s;
    assert i.Payload() + t == i.value + u;
    Cut(i.value, u);
    GetStringOf(i.resource, s);
    GetStringOf(i.systemId, t);
  }

  lemma {:induction false} GetItemsOf(items: seq<Item>, t: seq<byte>)
    ensures GetItems(AllWords(items), Payloads(items) + t) == Some((Views(items), t))
  {
    if items == [] {
      assert Payloads(items) + t == t;
    } else {
      var u := Payloads(items[1..]) + t;
      GetItemOf(items[0], u);
      GetItemsOf(items[1..], t);
      ItemsStep(items[0].Words(), AllWords(items[1..]), items[0].Payload() + u, items[0].View(), u, Views(items[1..]),
                t);
      Regroup(items[0].Payload(), Payloads(items[1..]), t);
    }
  }

  lemma ItemsStep(w: seq<nat>, ws: seq<seq<nat>>, b: seq<byte>, first: ItemView, b1: seq<byte>, rest: seq<ItemView>,
                  b2: seq<byte>)
    requires |w| == 6 && forall k :: 0 <= k < |ws| ==> |ws[k]| == 6
    requires GetItem(w, b) == Some((first, b1)) && GetItems(ws, b1) == Some((rest, b2))
    ensures GetItems([w] + ws, b) == Some(([first] + rest, b2))
  {
    assert ([w] + ws)[1..] == ws;
  }

  lemma {:induction false} PayloadsSplit(items: seq<Item>, i: nat)
    requires i <= |items|
    ensures Payloads(items) == Payloads(items[..i]) + Payloads(items[i..])
  {
    if i > 0 {
      PayloadsSplit(items[1..], i - 1);
      assert items[..i][1..] == items[1..][..i - 1] && items[1..][i - 1..] == items[i..];
    } else {
      assert items[..0] == [] && items[0..] == items;
    }
  }

  lemma OneMorePayload(items: seq<Item>, i: nat)
    requires i < |items|
    ensures Payloads(items[..i + 1]) == Payloads(items[..i]) + items[i].Payload()
  {
    var p := items[i].Payload();
    assert items[..i + 1][..i] == items[..i] && items[..i + 1][i..] == [items[i]];
    PayloadsSplit(items[..i + 1], i);
    assert Payloads([items[i]]) == p + Payloads([]) == p;
  }

  /** Reading the items one by one. */
  lemma NextItem(done: seq<ItemView>, ws: seq<seq<nat>>, i: nat, b: seq<byte>)
    requires i < |ws| && forall k :: 0 <= k < |ws| ==> |ws[k]| == 6
    ensures match GetItem(ws[i], b)
      case None => GetItems(ws[i..], b) == None
      case Some(r) => Prepend(done, GetItems(ws[i..], b)) == Prepend(done + [r.0], GetItems(ws[i + 1..], r.1))
  {
    assert ws[i..][1..] == ws[i + 1..];
    var r := GetItem(ws[i], b);
    if r.Some? {
      var tail := GetItems(ws[i + 1..], r.value.1);
      assert tail.Some? ==> done + ([r.value.0] + tail.value.0) == done + [r.value.0] + tail.value.0;
    }
  }

  // ----- value requests -----

  datatype Request = Request(id: Word32, resource: CStr, systemId: CStr, from: Word64, to: Word64, dataType: Word32,
                             valuesAddr: Word64, items: seq<Item>) {
    function Words(): seq<nat> { [id, 0, resource.Word(), systemId.Word(), from, to, dataType, |items|, valuesAddr] }
    function Strings(): seq<CStr> { [resource, systemId] }
    function View(): RequestView { RequestView(id, resource.Text(), systemId.Text(), from, to, dataType, Views(items)) }
    ghost predicate Representable() { |items| < Pow256(4) && AllRepresentable(items) }
    /** The marshaller refuses NULL data pointers, even for no data. */
    predicate Sendable() { valuesAddr != 0 && forall i :: 0 <= i < |items| ==> items[i].valueAddr != 0 }
    function Bytes(): seq<byte> {
      Pack(Words(), REQUEST_WIDTHS) + (AllBytes(Strings()) + (Structs(items) + Payloads(items)))
    }
  }

  datatype RequestView = RequestView(id: nat, resource: Option<CString>, systemId: Option<CString>, from: nat, to: nat,
                                     dataType: nat, items: seq<ItemView>)

  const REQUEST_WIDTHS: seq<nat> := [4, 4, 8, 8, 8, 8, 4, 4, 8]

  /** The item structs and the item data. */
  function GetValues(n: nat, b: seq<byte>): Option<(seq<ItemView>, seq<byte>)> {
    var (ws, b1) :- GetRows(b, ITEM_WIDTHS, n);
    GetItems(ws, b1)
  }

  function GetRequest(b: seq<byte>): (r: Option<(RequestView, seq<byte>)>) {
    var (w, b1) :- GetWords(b, REQUEST_WIDTHS);
    var (strs, b2) :- GetStrings([w[2], w[3]], b1);
    var (items, b3) :- GetValues(w[7], b2);
    Some((RequestView(w[0], strs[0], strs[1], w[4], w[5], w[6], items), b3))
  }

  lemma GetValuesOf(items: seq<Item>, t: seq<byte>)
    requires AllRepresentable(items)
    ensures GetValues(|items|, (Structs(items) + Payloads(items)) + t) == Some((Views(items), t))
  {
    Regroup(Structs(items), Payloads(items), t);
    ItemsFit(items);
    GetRowsOf(AllWords(items), ITEM_WIDTHS, Payloads(items) + t);
    GetItemsOf(items, t);
  }

  lemma RequestFits(r: Request)
    requires r.Representable()
    ensures Fits(r.Words(), REQUEST_WIDTHS)
  {
    Widths();
  }

  lemma RequestBytes(r: Request, t: seq<byte>)
    ensures r.Bytes() + t
      == Pack(r.Words(), REQUEST_WIDTHS) + (AllBytes(r.Strings()) + ((Structs(r.items) + Payloads(r.items)) + t))
  {
    var h, s, v := Pack(r.Words(), REQUEST_WIDTHS), AllBytes(r.Strings()), Structs(r.items) + Payloads(r.items);
    Regroup(h, s + v, t);
    Regroup(s, v, t);
  }

  /** Unmarshalling a marshalled request recovers it and consumes exactly its bytes, whatever follows. */
  lemma RequestRoundTrip(r: Request, t: seq<byte>)
    requires r.Representable()
    ensures GetRequest(r.Bytes() + t) == Some((r.View(), t))
  {
    var w, strs := r.Words(), r.Strings();
    var b2 := (Structs(r.items) + Payloads(r.items)) + t;
    var b1 := AllBytes(strs) + b2;
    RequestBytes(r, t);
    RequestFits(r);
    GetWordsOf(w, REQUEST_WIDTHS, b1);
    GetStringsOf(strs, b2);
    TwoStrings(r.resource, r.systemId);
    GetValuesOf(r.items, t);
    RequestSteps(r.Bytes() + t, w, b1, Texts(strs), b2, Views(r.items), t);
  }

  lemma RequestSteps(b: seq<byte>, w: seq<nat>, b1: seq<byte>, strs: seq<Option<CString>>, b2: seq<byte>,
                     items: seq<ItemView>, b3: seq<byte>)
    requires GetWords(b, REQUEST_WIDTHS) == Some((w, b1)) && |w| == 9
    requires GetStrings([w[2], w[3]], b1) == Some((strs, b2)) && |strs| == 2
    requires GetValues(w[7], b2) == Some((items, b3))
    ensures GetRequest(b) == Some((RequestView(w[0], strs[0], strs[1], w[4], w[5], w[6], items), b3))
  {
  }

  // ----- subscription requests -----

  datatype Subscription = Subscription(
    correlatorId: Word32, metricId: Word32, baseMetricId: Word32, resource: CStr, resourceOp: Word32,
    systemId: CStr, systemOp: Word32, value: CStr, valueOp: Word32)
  {
    function Words(): seq<nat> {
      [correlatorId, metricId, baseMetricId, 0, resource.Word(), resourceOp, 0, systemId.Word(), systemOp, 0,
       value.Word(), valueOp, 0]
    }
    function Strings(): seq<CStr> { [resource, systemId, value] }
    function Bytes(): seq<byte> { Pack(Words(), SUBSCRIPTION_WIDTHS) + AllBytes(Strings()) }
    function View(): SubscriptionView {
      SubscriptionView(correlatorId, metricId, baseMetricId, resource.Text(), resourceOp, systemId.Text(), systemOp,
                       value.Text(), valueOp)
    }
  }

  datatype SubscriptionView = SubscriptionView(
    correlatorId: nat, metricId: nat, baseMetricId: nat, resource: Option<CString>, resourceOp: nat,
    systemId: Option<CString>, systemOp: nat, value: Option<CString>, valueOp: nat)

  const SUBSCRIPTION_WIDTHS: seq<nat> := [4, 4, 4, 4, 8, 4, 4, 8, 4, 4, 8, 4, 4]

  function GetSubscription(b: seq<byte>): Option<(SubscriptionView, seq<byte>)> {
    var (w, b1) :- GetWords(b, SUBSCRIPTION_WIDTHS);
    var (s, b2) :- GetStrings([w[4], w[7], w[10]], b1);
    Some((SubscriptionView(w[0], w[1], w[2], s[0], w[5], s[1], w[8], s[2], w[11]), b2))
  }

  lemma SubscriptionFits(r: Subscription)
    ensures Fits(r.Words(), SUBSCRIPTION_WIDTHS)
  {
    Widths();
  }

  lemma SubscriptionRoundTrip(r: Subscription, t: seq<byte>)
    ensures GetSubscription(r.Bytes() + t) == Some((r.View(), t))
  {
    Regroup(Pack(r.Words(), SUBSCRIPTION_WIDTHS), AllBytes(r.Strings()), t);
    SubscriptionFits(r);
    GetWordsOf(r.Words(), SUBSCRIPTION_WIDTHS, AllBytes(r.Strings()) + t);
    ThreeStrings(r.resource, r.systemId, r.value);
    GetStringsOf(r.Strings(), t);
  }

  // ----- arrays of plugin definitions: all structs, then all strings -----

  datatype Definition = Definition(
    id: Word32, dataType: Word32, metricType: Word32, changeType: Word32, isContinuous: Word8, calculable: Word32,
    units: CStr, name: CStr)
  {
    function Words(): seq<nat> {
      [id, dataType, metricType, changeType, isContinuous, 0, calculable, units.Word(), name.Word()]
    }
    function View(): DefinitionView {
      DefinitionView(id, dataType, metricType, changeType, isContinuous, calculable, units.Text(), name.Text())
    }
  }

  datatype DefinitionView = DefinitionView(
    id: nat, dataType: nat, metricType: nat, changeType: nat, isContinuous: nat, calculable: nat,
    units: Option<CString>, name: Option<CString>)

  const DEFINITION_WIDTHS: seq<nat> := [4, 4, 4, 4, 1, 3, 4, 8, 8]

  function DefinitionStructs(ds: seq<Definition>): seq<byte> {
    Rows(DefinitionWords(ds), DEFINITION_WIDTHS)
  }

  function DefinitionStrings(ds: seq<Definition>): seq<byte> {
    if ds == [] then [] else AllBytes([ds[0].units, ds[0].name]) + DefinitionStrings(ds[1..])
  }

  function DefinitionWords(ds: seq<Definition>): (ws: seq<seq<nat>>)
    ensures |ws| == |ds| && forall k :: 0 <= k < |ws| ==> |ws[k]| == 9
  {
    if ds == [] then [] else [ds[0].Words()] + DefinitionWords(ds[1..])
  }

  function DefinitionViews(ds: seq<Definition>): seq<DefinitionView> {
    if ds == [] then [] else [ds[0].View()] + DefinitionViews(ds[1..])
  }

  function GetDefinition(w: seq<nat>, b: seq<byte>): (r: Option<(DefinitionView, seq<byte>)>)
    requires |w| == 9
    ensures r.Some? ==> |r.value.1| <= |b|
  {
    var (s, b1) :- GetStrings([w[7], w[8]], b);
    Some((DefinitionView(w[0], w[1], w[2], w[3], w[4], w[6], s[0], s[1]), b1))
  }

  function GetDefinitionStrings(ws: seq<seq<nat>>, b: seq<byte>): Option<(seq<DefinitionView>, seq<byte>)>
    requires forall k :: 0 <= k < |ws| ==> |ws[k]| == 9
    decreases |ws|
  {
    if ws == [] then Some(([], b))
    else
      var (first, b1) :- GetDefinition(ws[0], b);
      var (rest, b2) :- GetDefinitionStrings(ws[1..], b1);
      Some(([first] + rest, b2))
  }

  function GetDefinitions(b: seq<byte>, n: nat): Option<(seq<DefinitionView>, seq<byte>)> {
    var (ws, b1) :- GetRows(b, DEFINITION_WIDTHS, n);
    GetDefinitionStrings(ws, b1)
  }

  lemma NextDefinition(done: seq<DefinitionView>, ws: seq<seq<nat>>, i: nat, b: seq<byte>)
    requires i < |ws| && forall k :: 0 <= k < |ws| ==> |ws[k]| == 9
    ensures match GetDefinition(ws[i], b)
      case None => GetDefinitionStrings(ws[i..], b) == None
      case Some(r) =>
        Prepend(done, GetDefinitionStrings(ws[i..], b)) == Prepend(done + [r.0], GetDefinitionStrings(ws[i + 1..], r.1))
  {
    assert ws[i..][1..] == ws[i + 1..];
    var r := GetDefinition(ws[i], b);
    if r.Some? {
      var tail := GetDefinitionStrings(ws[i + 1..], r.value.1);
      assert tail.Some? ==> done + ([r.value.0] + tail.value.0) == done + [r.value.0] + tail.value.0;
    }
  }

  lemma DefinitionFits(d: Definition)
    ensures Fits(d.Words(), DEFINITION_WIDTHS)
  {
    Widths();
    assert Pow256(3) == 256 * Pow256(2);
  }

  lemma {:induction false} DefinitionsFit(ds: seq<Definition>)
    ensures AllFit(DefinitionWords(ds), DEFINITION_WIDTHS)
  {
    if ds != [] {
      DefinitionFits(ds[0]);
      DefinitionsFit(ds[1..]);
    }
  }

  lemma DefinitionOf(d: Definition, t: seq<byte>)
    ensures GetDefinition(d.Words(), AllBytes([d.units, d.name]) + t) == Some((d.View(), t))
  {
    TwoStrings(d.units, d.name);
    GetStringsOf([d.units, d.name], t);
  }

  lemma DefinitionStep(w: seq<nat>, ws: seq<seq<nat>>, b: seq<byte>, first: DefinitionView, b1: seq<byte>,
                       rest: seq<DefinitionView>, b2: seq<byte>)
    requires |w| == 9 && forall k :: 0 <= k < |ws| ==> |ws[k]| == 9
    requires GetDefinition(w, b) == Some((first, b1)) && GetDefinitionStrings(ws, b1) == Some((rest, b2))
    ensures GetDefinitionStrings([w] + ws, b) == Some(([first] + rest, b2))
  {
    assert ([w] + ws)[1..] == ws;
  }

  lemma {:induction false} DefinitionStringsOf(ds: seq<Definition>, t: seq<byte>)
    ensures GetDefinitionStrings(DefinitionWords(ds), DefinitionStrings(ds) + t) == Some((DefinitionViews(ds), t))
  {
    if ds == [] {
      assert DefinitionStrings(ds) + t == t;
    } else {
      var s, u := AllBytes([ds[0].units, ds[0].name]), DefinitionStrings(ds[1..]) + t;
      DefinitionOf(ds[0], u);
      DefinitionStringsOf(ds[1..], t);
      DefinitionStep(ds[0].Words(), DefinitionWords(ds[1..]), s + u, ds[0].View(), u, DefinitionViews(ds[1..]), t);
      Regroup(s, DefinitionStrings(ds[1..]), t);
    }
  }

  function DefinitionBytes(ds: seq<Definition>): seq<byte> {
    DefinitionStructs(ds) + DefinitionStrings(ds)
  }

  lemma DefinitionsRoundTrip(ds: seq<Definition>, t: seq<byte>)
    ensures GetDefinitions(DefinitionBytes(ds) + t, |ds|) == Some((DefinitionViews(ds), t))
  {
    Regroup(DefinitionStructs(ds), DefinitionStrings(ds), t);
    DefinitionsFit(ds);
    GetRowsOf(DefinitionWords(ds), DEFINITION_WIDTHS, DefinitionStrings(ds) + t);
    DefinitionStringsOf(ds, t);
  }

  // ----- messages one after another -----

  function Stream(rs: seq<Request>): seq<byte> {
    if rs == [] then [] else rs[0].Bytes() + Stream(rs[1..])
  }

  function GetStream(b: seq<byte>, n: nat): Option<(seq<RequestView>, seq<byte>)>
    decreases n
  {
    if n == 0 then Some(([], b))
    else
      var (r, b1) :- GetRequest(b);
      var (rest, b2) :- GetStream(b1, n - 1);
      Some(([r] + rest, b2))
  }

  function RequestViews(rs: seq<Request>): seq<RequestView> {
    if rs == [] then [] else [rs[0].View()] + RequestViews(rs[1..])
  }

  lemma {:induction false} StreamRoundTrip(rs: seq<Request>, t: seq<byte>)
    requires forall i :: 0 <= i < |rs| ==> rs[i].Representable()
    ensures GetStream(Stream(rs) + t, |rs|) == Some((RequestViews(rs), t))
  {
    if rs == [] {
      assert Stream(rs) + t == t;
    } else {
      Regroup(rs[0].Bytes(), Stream(rs[1..]), t);
      RequestRoundTrip(rs[0], Stream(rs[1..]) + t);
      StreamRoundTrip(rs[1..], t);
    }
  }
}
