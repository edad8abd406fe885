/** Where the fields of the C structs lie in the messages (marshal.c, rrepos.c, reposd.c). */
module Layout {
  import opened CBytes
  import opened Wire
  import opened Marshal
  import opened Response
  import opened Exchange
  import opened Compare
  import opened RemoteQuery

  /** Three fields of `u`, `v` and `w` bytes. */
  function Three(a: nat, u: nat, b: nat, v: nat, c: nat, w: nat): seq<byte> {
    Little(a, u) + Little(b, v) + Little(c, w)
  }

  lemma PackOf3(a: nat, u: nat, b: nat, v: nat, c: nat, w: nat)
    ensures Pack([a, b, c], [u, v, w]) == Three(a, u, b, v, c, w)
  {
    assert [a, b, c][1..] == [b, c] && [b, c][1..] == [c] && [c][1..] == [];
    assert [u, v, w][1..] == [v, w] && [v, w][1..] == [w] && [w][1..] == [];
    assert Pack([c], [w]) == Little(c, w);
    assert Pack([b, c], [v, w]) == Little(b, v) + Little(c, w);
  }

  lemma {:induction false} PackSplit(a: seq<nat>, u: seq<nat>, b: seq<nat>, v: seq<nat>)
    requires |a| == |u| && |b| == |v|
    ensures Pack(a + b, u + v) == Pack(a, u) + Pack(b, v)
  {
    if a == [] {
      assert a + b == b && u + v == v;
    } else {
      assert (a + b)[1..] == a[1..] + b && (u + v)[1..] == u[1..] + v;
      PackSplit(a[1..], u[1..], b, v);
      Regroup(Little(a[0], u[0]), Pack(a[1..], u[1..]), Pack(b, v));
    }
  }

  lemma PackOf3And(a: nat, u: nat, b: nat, v: nat, c: nat, w: nat, words: seq<nat>, widths: seq<nat>)
    requires |words| == |widths|
    ensures Pack([a, b, c] + words, [u, v, w] + widths) == Three(a, u, b, v, c, w) + Pack(words, widths)
  {
    PackOf3(a, u, b, v, c, w);
    PackSplit([a, b, c], [u, v, w], words, widths);
  }

  /** The address of a string is sent as it is, and the string with its terminator. */
  function Address(s: CStr): nat {
    if s == Null then 0 else s.addr
  }

  function Text(s: CStr): seq<byte> {
    if s == Null then [] else s.text + [0]
  }

  lemma StringsLayout(s: CStr, t: CStr)
    ensures AllBytes([s, t]) == Text(s) + Text(t)
  {
    assert [s, t][1..] == [t] && [t][1..] == [];
    assert AllBytes([t]) == t.Bytes() + [] == t.Bytes();
  }

  /** A value request: metric id, padding and the two names, the window, type, number and address of the values, then
      the names themselves, the item structs, and the item data. */
  lemma RequestLayout(r: Request)
    ensures r.Bytes() ==
      (Three(r.id, 4, 0, 4, Address(r.resource), 8)
       + (Three(Address(r.systemId), 8, r.from, 8, r.to, 8) + Three(r.dataType, 4, |r.items|, 4, r.valuesAddr, 8)))
      + ((Text(r.resource) + Text(r.systemId)) + (Structs(r.items) + Payloads(r.items)))
  {
    var a, b := [r.id, 0, r.resource.Word()], [r.systemId.Word(), r.from, r.to];
    var c := [r.dataType, |r.items|, r.valuesAddr];
    assert r.Words() == a + (b + c) && REQUEST_WIDTHS == [4, 4, 8] + ([8, 8, 8] + [4, 4, 8]);
    PackOf3And(a[0], 4, a[1], 4, a[2], 8, b + c, [8, 8, 8] + [4, 4, 8]);
    PackOf3And(b[0], 8, b[1], 8, b[2], 8, c, [4, 4, 8]);
    PackOf3(c[0], 4, c[1], 4, c[2], 8);
    StringsLayout(r.resource, r.systemId);
  }

  /** An item: time stamp, duration and length, then the addresses of value and names. */
  lemma ItemLayout(i: Item)
    ensures Pack(i.Words(), ITEM_WIDTHS)
      == Three(i.captureTime, 8, i.duration, 8, |i.value|, 8)
         + Three(i.valueAddr, 8, Address(i.resource), 8, Address(i.systemId), 8)
    ensures i.Payload() == i.value + (Text(i.resource) + Text(i.systemId))
  {
    var a, b := [i.captureTime, i.duration, |i.value|], [i.valueAddr, i.resource.Word(), i.systemId.Word()];
    assert i.Words() == a + b && ITEM_WIDTHS == [8, 8, 8] + [8, 8, 8];
    PackOf3And(a[0], 8, a[1], 8, a[2], 8, b, [8, 8, 8]);
    PackOf3(b[0], 8, b[1], 8, b[2], 8);
  }

  /** A subscription request: three ids; resource, system and value, each with its operator; then the strings. */
  lemma SubscriptionLayout(r: Subscription)
    ensures r.Bytes() ==
      (Three(r.correlatorId, 4, r.metricId, 4, r.baseMetricId, 4)
       + (Three(0, 4, Address(r.resource), 8, r.resourceOp, 4)
          + (Three(0, 4, Address(r.systemId), 8, r.systemOp, 4)
             + (Three(0, 4, Address(r.value), 8, r.valueOp, 4) + [0, 0, 0, 0]))))
      + (Text(r.resource) + (Text(r.systemId) + Text(r.value)))
  {
    SubscriptionStruct(r);
    StringsLayout(r.systemId, r.value);
    assert r.Strings()[1..] == [r.systemId, r.value];
  }

  lemma SubscriptionStruct(r: Subscription)
    ensures Pack(r.Words(), SUBSCRIPTION_WIDTHS)
      == Three(r.correlatorId, 4, r.metricId, 4, r.baseMetricId, 4)
         + (Three(0, 4, Address(r.resource), 8, r.resourceOp, 4)
            + (Three(0, 4, Address(r.systemId), 8, r.systemOp, 4)
               + (Three(0, 4, Address(r.value), 8, r.valueOp, 4) + [0, 0, 0, 0])))
  {
    var words, widths := OperandWords(r), OperandWidths();
    assert r.Words() == [r.correlatorId, r.metricId, r.baseMetricId] + words;
    assert SUBSCRIPTION_WIDTHS == [4, 4, 4] + widths;
    PackOf3And(r.correlatorId, 4, r.metricId, 4, r.baseMetricId, 4, words, widths);
    OperandsLayout(r);
  }

  function OperandWords(r: Subscription): (words: seq<nat>)
    ensures |words| == 10
  {
    [0, r.resource.Word(), r.resourceOp] + ([0, r.systemId.Word(), r.systemOp] + ([0, r.value.Word(), r.valueOp] + [0]))
  }

  function OperandWidths(): (widths: seq<nat>)
    ensures |widths| == 10
  {
    [4, 8, 4] + ([4, 8, 4] + ([4, 8, 4] + [4]))
  }

  lemma OperandsLayout(r: Subscription)
    ensures Pack(OperandWords(r), OperandWidths())
      == Three(0, 4, Address(r.resource), 8, r.resourceOp, 4)
         + (Three(0, 4, Address(r.systemId), 8, r.systemOp, 4)
            + (Three(0, 4, Address(r.value), 8, r.valueOp, 4) + [0, 0, 0, 0]))
  {
    var c: seq<nat> := [0, r.value.Word(), r.valueOp] + [0];
    var b: seq<nat> := [0, r.systemId.Word(), r.systemOp] + c;
    PackOf3And(0, 4, r.resource.Word(), 8, r.resourceOp, 4, b, [4, 8, 4] + ([4, 8, 4] + [4]));
    PackOf3And(0, 4, r.systemId.Word(), 8, r.systemOp, 4, c, [4, 8, 4] + [4]);
    PackOf3And(0, 4, r.value.Word(), 8, r.valueOp, 4, [0], [4]);
    FourZeros();
  }

  lemma FourZeros()
    ensures Pack([0], [4]) == [0, 0, 0, 0]
  {
    assert [0][1..] == [] && [4][1..] == [];
    assert Little(0, 4) == [0] + Little(0, 3) && Little(0, 3) == [0] + Little(0, 2) && Little(0, 2) == [0, 0];
  }

  /** A plugin definition: ids and types, a flag with its padding, the number of its calculator, unit and name. */
  lemma DefinitionLayout(d: Definition)
    ensures Pack(d.Words(), DEFINITION_WIDTHS)
      == Three(d.id, 4, d.dataType, 4, d.metricType, 4)
         + (Three(d.changeType, 4, d.isContinuous, 1, 0, 3)
            + Three(d.calculable, 4, Address(d.units), 8, Address(d.name), 8))
  {
    var a, b := [d.id, d.dataType, d.metricType], [d.changeType, d.isContinuous, 0];
    var c := [d.calculable, d.units.Word(), d.name.Word()];
    assert d.Words() == a + (b + c) && DEFINITION_WIDTHS == [4, 4, 4] + ([4, 1, 3] + [4, 8, 8]);
    PackOf3And(a[0], 4, a[1], 4, a[2], 4, b + c, [4, 1, 3] + [4, 8, 8]);
    PackOf3And(b[0], 4, b[1], 1, b[2], 3, c, [4, 8, 8]);
    PackOf3(c[0], 4, c[1], 8, c[2], 8);
  }

  /** The message header: command, result, length. */
  lemma HeaderLayout(h: Header)
    ensures h.Bytes() == Three(h.cmd, 2, h.result, 2, h.datalen, 4)
  {
    PackOf3(h.cmd, 2, h.result, 2, h.datalen, 4);
  }

  /** A query has command 8, a filtered one command 15 and, behind its names, twelve bytes of parameters. */
  lemma QueryLayout(words: seq<nat>, resource: CStr, systemId: CStr, filter: Option<FilterParams>)
    requires |words| == |REQUEST_WIDTHS| && |QueryFor(words, resource, systemId, filter).Bytes()| < TWO_32
    ensures var q := QueryFor(words, resource, systemId, filter);
      && RequestHeader(q).Bytes() == Three(if filter.None? then 8 else 15, 2, 0, 2, |q.Bytes()|, 4)
      && q.Bytes() == Pack(words, REQUEST_WIDTHS) + (Text(resource) + (Text(systemId) +
           (if filter.None? then [] else Little(filter.value.num, 8) + Little(filter.value.ascending, 4))))
  {
    HeaderLayout(RequestHeader(QueryFor(words, resource, systemId, filter)));
  }

  /** The daemon addresses the fields of the struct that the marshaller writes. */
  lemma SameStruct(r: Request, items: seq<ItemView>)
    ensures var w := r.Words();
      && w[ID] == r.id && w[RESOURCE] == Address(r.resource) && w[SYSTEM_ID] == Address(r.systemId)
      && w[FROM] == r.from && w[TO] == r.to && w[DATA_TYPE] == r.dataType && w[NUM_VALUES] == |r.items|
      && w[VALUES] == r.valuesAddr && ReplyWith(w, items) == Reply(r.id, r.from, r.to, r.dataType, items)
  {
  }

  /** So does the client with its query: no type, and the number of samples it asks for. */
  lemma QueryStruct(cq: ClientQuery)
    ensures cq.Words() == Request(
      cq.id % TWO_32, Sent(cq.resource), Sent(cq.systemId), cq.from % 0x1_0000_0000_0000_0000,
      cq.to % 0x1_0000_0000_0000_0000, 0, 0, []).Words()[7 := cq.num % TWO_32]
  {
  }

  /** A computed value on the wire. */
  lemma ValueOnWire(v: ValueItem)
    requires -0x8000_0000_0000_0000 <= v.duration < 0x8000_0000_0000_0000
    ensures ToItem(v).captureTime == v.captureTime % 0x1_0000_0000_0000_0000
    ensures ToItem(v).duration == v.duration % 0x1_0000_0000_0000_0000
    ensures ToItem(v).value == v.value
    ensures ToItem(v).resource.Text() == v.resource && ToItem(v).systemId.Text() == v.systemId
  {
  }
}
