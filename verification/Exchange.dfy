/** Value queries between client and daemon: request, reply, and the client's decoding of it (rrepos.c, reposd.c). */
module Exchange {
  import opened CBytes
  import opened Wire
  import opened Marshal
  import opened Response

  // ----- decoding a reply -----

  method DecodeValues(xbuf: array<byte>, offset: nat, n: nat) returns (items: seq<ItemView>)
    requires offset <= xbuf.Length && GetValues(n, xbuf[offset..]).Some?
    ensures GetValues(n, xbuf[offset..]).value.0 == items
  {
    ItemSize();
    RowsInOnePiece(xbuf[offset..], ITEM_WIDTHS, n);
    var vp := offset + SIZEOF_VALUEITEM * n;
    assert xbuf[offset..vp] == xbuf[offset..][..SIZEOF_VALUEITEM * n]
      && xbuf[vp..] == xbuf[offset..][SIZEOF_VALUEITEM * n..];
    items := DecodeItems(UnpackAll(xbuf[offset..vp], ITEM_WIDTHS, n), xbuf, vp);
  }

  /** The client's loop over the items behind the request; it trusts the message and checks no bounds. */
  method DecodeItems(ws: seq<seq<nat>>, xbuf: array<byte>, start: nat) returns (items: seq<ItemView>)
    requires start <= xbuf.Length && (forall k :: 0 <= k < |ws| ==> |ws[k]| == 6) && GetItems(ws, xbuf[start..]).Some?
    ensures GetItems(ws, xbuf[start..]).value.0 == items
  {
    items := [];
    var vp: nat := start;
    ghost var want := GetItems(ws, xbuf[start..]);
    var i := 0;
    assert ws[0..] == ws && [] + want.value.0 == want.value.0;
    while i < |ws|
      invariant 0 <= i <= |ws| && vp <= xbuf.Length
      invariant want == Prepend(items, GetItems(ws[i..], xbuf[vp..]))
    {
      NextItem(items, ws, i, xbuf[vp..]);
      var item;
      item, vp := DecodeItem(ws[i], xbuf, vp);
      items := items + [item];
      i := i + 1;
    }
    assert ws[i..] == [] && items + [] == items;
  }

  method DecodeItem(w: seq<nat>, xbuf: array<byte>, start: nat) returns (item: ItemView, vp: nat)
    requires start <= xbuf.Length && |w| == 6 && GetItem(w, xbuf[start..]).Some?
    ensures vp <= xbuf.Length && GetItem(w, xbuf[start..]) == Some((item, xbuf[vp..]))
  {
    vp := start + w[2];
    var value := xbuf[start..vp];
    assert xbuf[start..][..w[2]] == value && xbuf[start..][w[2]..] == xbuf[vp..];
    var resource, systemId;
    resource, vp := DecodeString(w[4], xbuf, vp);
    systemId, vp := DecodeString(w[5], xbuf, vp);
    item := ItemView(w[0], w[1], value, resource, systemId);
  }

  /** What `rrepos_get` and `rrepos_getfiltered` copy out of a reply; `skip` is computed from the client's request. */
  method ReadReply(xbuf: array<byte>, skip: nat) returns (reply: Reply)
    requires SIZEOF_COMM <= xbuf.Length && GetReply(xbuf[SIZEOF_COMM..], skip).Some?
    ensures GetReply(xbuf[SIZEOF_COMM..], skip).value.0 == reply
  {
    var vr := SIZEOF_COMM + SIZEOF_VALUEREQUEST;
    ghost var b := xbuf[SIZEOF_COMM..];
    ReplyParts(b, skip);
    assert b[SIZEOF_VALUEREQUEST + skip..] == xbuf[vr + skip..];
    assert b[..SIZEOF_VALUEREQUEST] == xbuf[SIZEOF_COMM..vr];
    var words := RequestWords(xbuf[SIZEOF_COMM..vr]);
    var items := DecodeValues(xbuf, vr + skip, words[NUM_VALUES]);
    reply := ReplyWith(words, items);
  }

  lemma ReplyParts(b: seq<byte>, skip: nat)
    requires GetReply(b, skip).Some?
    ensures SIZEOF_VALUEREQUEST + skip <= |b|
    ensures var words := RequestWords(b[..SIZEOF_VALUEREQUEST]);
      var r := GetValues(words[NUM_VALUES], b[SIZEOF_VALUEREQUEST + skip..]);
      r.Some? && GetReply(b, skip) == Some((ReplyWith(words, r.value.0), r.value.1))
  {
    assert b[SIZEOF_VALUEREQUEST..][skip..] == b[SIZEOF_VALUEREQUEST + skip..];
  }

  /** A reply is accepted if its length is the announced one and its result is 0. */
  predicate Accepted(h: Header, len: nat) {
    len == SIZEOF_COMM + h.datalen && ReadResult(h.result) == 0
  }

  method Receive(xbuf: array<byte>, skip: nat, ghost h: Header) returns (got: Option<Reply>)
    requires SIZEOF_COMM <= xbuf.Length && xbuf[..SIZEOF_COMM] == h.Bytes()
    requires Accepted(h, xbuf.Length) ==> GetReply(xbuf[SIZEOF_COMM..], skip).Some?
    ensures got == if Accepted(h, xbuf.Length) then Some(GetReply(xbuf[SIZEOF_COMM..], skip).value.0) else None
  {
    HeaderWords(h);
    var w := Unpack(xbuf[..SIZEOF_COMM], COMM_WIDTHS);
    got := None;
    if xbuf.Length == SIZEOF_COMM + w[DATALEN] && ReadResult(w[RESULT]) == 0 {
      var reply := ReadReply(xbuf, skip);
      got := Some(reply);
    }
  }

  lemma HeaderWords(h: Header)
    ensures |h.Bytes()| == Size(COMM_WIDTHS) == SIZEOF_COMM && Unpack(h.Bytes(), COMM_WIDTHS) == h.Words()
  {
    CommSize();
    Widths();
    UnpackPack(h.Words(), COMM_WIDTHS);
  }

  // ----- the request -----

  const GATHERVALBUFLEN: nat := 10000
  const GCMD_GETVALUE: Word16 := 8
  const GCMD_GETFILTERED: Word16 := 15

  method Copy(a: array<byte>, pos: nat, b: seq<byte>, ghost before: seq<byte>) returns (end: nat)
    requires pos + |b| <= a.Length && a[..pos] == before
    modifies a
    ensures end == pos + |b| <= a.Length && a[..end] == before + b
  {
    forall i | 0 <= i < |b| {
      a[pos + i] := b[i];
    }
    end := pos + |b|;
    assert a[..pos] == before && a[pos..end] == b;
    assert a[..end] == a[..pos] + a[pos..end];
  }

  /** What a filtered query adds: the number of values wanted and the direction. */
  datatype FilterParams = FilterParams(num: Word64, ascending: Word32) {
    function Bytes(): seq<byte> { Little(num, 8) + Little(ascending, 4) }
  }

  function ParamBytes(filter: Option<FilterParams>): (b: seq<byte>)
    ensures |b| == if filter.Some? then FILTER else 0
  {
    if filter.Some? then filter.value.Bytes() else []
  }

  function QueryFor(words: seq<nat>, resource: CStr, systemId: CStr, filter: Option<FilterParams>): (q: Query)
    ensures |q.filter| == if filter.Some? then FILTER else 0
  {
    Query(words, resource, systemId, ParamBytes(filter))
  }

  /** The header of a request. */
  function RequestHeader(q: Query): Header
    requires |q.words| == |REQUEST_WIDTHS| && |q.Bytes()| < TWO_32
  {
    Header(if q.filter == [] then GCMD_GETVALUE else GCMD_GETFILTERED, 0, |q.Bytes()|)
  }

  /** The bytes of a reply that repeat the request's strings and parameters. */
  function ReplySkip(resource: CStr, systemId: CStr, filtered: bool): nat {
    |resource.Bytes()| + |systemId.Bytes()| + if filtered then FILTER else 0
  }

  /** The parts of a request, one after the other. */
  method Fill(h: seq<byte>, vr: seq<byte>, strs: seq<byte>, params: seq<byte>) returns (xbuf: array<byte>, len: nat)
    requires |h| + |vr| + |strs| + |params| <= GATHERVALBUFLEN
    ensures fresh(xbuf) && len <= xbuf.Length && xbuf[..len] == h + vr + strs + params
  {
    xbuf := new byte[GATHERVALBUFLEN](_ => 0);
    len := Copy(xbuf, 0, h, []);
    len := Copy(xbuf, len, vr, [] + h);
    len := Copy(xbuf, len, strs, [] + h + vr);
    len := Copy(xbuf, len, params, [] + h + vr + strs);
    assert [] + h == h;
  }

  /** The client's request: each part is copied to the place that the lengths of the parts before it give. */
  method ComposeRequest(words: seq<nat>, resource: CStr, systemId: CStr, filter: Option<FilterParams>)
    returns (xbuf: array<byte>, len: nat)
    requires |words| == |REQUEST_WIDTHS|
    requires SIZEOF_COMM + |QueryFor(words, resource, systemId, filter).Bytes()| <= GATHERVALBUFLEN
    ensures fresh(xbuf) && len <= xbuf.Length
    ensures var q := QueryFor(words, resource, systemId, filter); xbuf[..len] == RequestHeader(q).Bytes() + q.Bytes()
  {
    ghost var q := QueryFor(words, resource, systemId, filter);
    var vr, strs, params := Pack(words, REQUEST_WIDTHS), resource.Bytes() + systemId.Bytes(), ParamBytes(filter);
    RequestParts(words, resource, systemId, filter);
    var datalen := |vr| + |strs| + |params|;
    var h := Header(if filter.None? then GCMD_GETVALUE else GCMD_GETFILTERED, 0, datalen);
    assert datalen == |q.Bytes()| && h == RequestHeader(q);
    HeaderWords(h);
    xbuf, len := Fill(h.Bytes(), vr, strs, params);
    JoinParts(h.Bytes(), vr, strs, params);
    assert xbuf[..len] == h.Bytes() + q.Bytes();
  }

  lemma JoinParts(h: seq<byte>, vr: seq<byte>, strs: seq<byte>, params: seq<byte>)
    ensures h + vr + strs + params == h + (vr + (strs + params))
  {
  }

  lemma RequestParts(words: seq<nat>, resource: CStr, systemId: CStr, filter: Option<FilterParams>)
    requires |words| == |REQUEST_WIDTHS|
    ensures var q := QueryFor(words, resource, systemId, filter);
      var vr, strs := Pack(words, REQUEST_WIDTHS), resource.Bytes() + systemId.Bytes();
      && q.Bytes() == vr + (strs + q.filter) && |q.Bytes()| == |vr| + |strs| + |q.filter|
      && (q.filter == [] <==> filter.None?)
  {
    Regroup(resource.Bytes(), systemId.Bytes(), QueryFor(words, resource, systemId, filter).filter);
  }

  // ----- the daemon's reply -----

  /** The length of the reply that delivers `items` must fit its field in the header. */
  ghost predicate ReplyFits(q: Query, items: seq<Item>)
    requires |q.words| == |REQUEST_WIDTHS|
  {
    |q.Bytes()| + |Structs(items)| + |Payloads(items)| < TWO_32
  }

  /** What the client makes of the reply: an error, or its own request with type and items filled in. */
  function Delivery(q: Query, result: int, dataType: nat, items: seq<Item>, complete: bool): Option<Reply>
    requires |q.words| == |REQUEST_WIDTHS|
  {
    if result == 0 && complete then Some(TypedReply(q, dataType, Views(items))) else None
  }

  /** The client's reading of `reply` is `want`. */
  ghost predicate ReadsAs(reply: seq<byte>, h: Header, skip: nat, want: Option<Reply>) {
    && SIZEOF_COMM <= |reply| && reply[..SIZEOF_COMM] == h.Bytes()
    && (Accepted(h, |reply|) <==> want.Some?)
    && (want.Some? ==> GetReply(reply[SIZEOF_COMM..], skip) == Some((want.value, [])))
  }

  /** Sends as many bytes as the header announces. */
  method Transmit(daemon: Transfer, ghost h: Header) returns (reply: seq<byte>)
    requires daemon.Valid() && SIZEOF_COMM + h.datalen <= daemon.vp && daemon.Contents()[..SIZEOF_COMM] == h.Bytes()
    ensures reply == daemon.Contents()[..SIZEOF_COMM + h.datalen]
  {
    HeaderWords(h);
    var sent := daemon.buffer[..daemon.vp];
    var w := Unpack(sent[..SIZEOF_COMM], COMM_WIDTHS);
    reply := sent[..SIZEOF_COMM + w[DATALEN]];
  }

  lemma ShortLength(datalen: nat)
    ensures datalen % TWO_32 <= datalen && (datalen < TWO_32 ==> datalen % TWO_32 == datalen)
  {
  }

  /** Encodes the reply to a located request and sends it. */
  method Send(daemon: Transfer, w: seq<nat>, resourceLen: nat, result: int, items: seq<Item>, dataType: Word32,
              values: Word64, ghost q: Query)
    returns (reply: seq<byte>, ghost h: Header)
    requires daemon.Valid() && daemon.vi == daemon.vp && q.WellFormed() && w == q.words && result in {0, -1}
    requires |q.Bytes()| < TWO_32 && daemon.Contents() == RequestHeader(q).Bytes() + q.Bytes()
    requires |items| <= INT_MAX && AllRepresentable(items) && ReplyFits(q, items)
    modifies daemon, daemon.buffer
    ensures ReadsAs(reply, h, |q.Tail()|, Delivery(q, result, dataType, items, AllComplete(items)))
  {
    var rc, datalen;
    HeaderWords(RequestHeader(q));
    rc, datalen, h := daemon.Respond(w, resourceLen, result, items, dataType, values, RequestHeader(q), q);
    HeaderWords(h);
    ShortLength(datalen);
    reply := Transmit(daemon, h);
    Answers(q, result, rc, datalen, items, dataType, daemon.Contents(), h);
  }

  /** What is sent of the transfer buffer reads as it should. */
  lemma Answers(q: Query, result: int, rc: int, datalen: nat, items: seq<Item>, dataType: Word32, c: seq<byte>,
                h: Header)
    requires q.WellFormed() && result in {0, -1} && rc == (if result == 0 && AllComplete(items) then 0 else -1)
    requires |q.Bytes()| < TWO_32 && ReplyFits(q, items) && SIZEOF_COMM + h.datalen <= |c|
      && c[..SIZEOF_COMM] == h.Bytes()
    requires h.result == Stored(rc)
    requires result == 0 && AllComplete(items) ==>
      (h.datalen == datalen % TWO_32 && datalen == |c| - SIZEOF_COMM
       && |c| == SIZEOF_COMM + |q.Bytes()| + |Structs(items)| + |Payloads(items)|
       && GetReply(c[SIZEOF_COMM..], |q.Tail()|) == Some((TypedReply(q, dataType, Views(items)), [])))
    ensures ReadsAs(c[..SIZEOF_COMM + h.datalen], h, |q.Tail()|,
                    Delivery(q, result, dataType, items, AllComplete(items)))
  {
    var reply := c[..SIZEOF_COMM + h.datalen];
    StoredResult(rc);
    PrefixOfPrefix(c, SIZEOF_COMM, SIZEOF_COMM + h.datalen);
    if result == 0 && AllComplete(items) {
      ShortLength(datalen);
      PrefixOfPrefix(c, |c|, |c|);
    }
  }

  lemma PrefixOfPrefix(c: seq<byte>, m: nat, n: nat)
    requires m <= n <= |c|
    ensures c[..n][..m] == c[..m] && c[..|c|] == c
  {
  }

  method ToArray(s: seq<byte>) returns (a: array<byte>)
    ensures fresh(a) && a[..] == s
  {
    a := new byte[|s|](i requires 0 <= i < |s| => s[i]);
  }

  /** The daemon's side of a query. */
  method Serve(request: seq<byte>, filtered: bool, result: int, items: seq<Item>, dataType: Word32, values: Word64,
               size: nat, address: (nat, nat) -> Addr, ghost q: Query)
    returns (reply: seq<byte>, ghost h: Header)
    requires q.WellFormed() && |q.filter| == (if filtered then FILTER else 0) && result in {0, -1}
    requires |q.Bytes()| < TWO_32 && request == RequestHeader(q).Bytes() + q.Bytes() && |request| <= size
    requires |items| <= INT_MAX && AllRepresentable(items) && ReplyFits(q, items)
    ensures ReadsAs(reply, h, |q.Tail()|, Delivery(q, result, dataType, items, AllComplete(items)))
  {
    var daemon := new Transfer(request, size, address);
    HeaderWords(RequestHeader(q));
    var w, resource, systemId := daemon.Locate(filtered, RequestHeader(q).Bytes(), q);
    reply, h := Send(daemon, w, TextLength(resource), result, items, dataType, values, q);
  }

  function TextLength(s: Option<CString>): nat {
    if s.Some? then |s.value| + 1 else 0
  }

  lemma SkipIsTail(words: seq<nat>, resource: CStr, systemId: CStr, filter: Option<FilterParams>)
    ensures |QueryFor(words, resource, systemId, filter).Tail()| == ReplySkip(resource, systemId, filter.Some?)
  {
  }

  /** The client's side of a reply. */
  method Deliver(reply: seq<byte>, skip: nat, ghost h: Header, ghost want: Option<Reply>) returns (got: Option<Reply>)
    requires ReadsAs(reply, h, skip, want)
    ensures got == want
  {
    var rbuf := ToArray(reply);
    assert rbuf[..SIZEOF_COMM] == reply[..SIZEOF_COMM] && rbuf[SIZEOF_COMM..] == reply[SIZEOF_COMM..];
    got := Receive(rbuf, skip, h);
  }

  /** A value query from the client to the daemon and back, the daemon having found `items`: the client ends up with
      exactly these items and their type, or with an error if the query failed or an item lacks a string. */
  method ValueQuery(words: seq<nat>, resource: CStr, systemId: CStr, filter: Option<FilterParams>,
                    result: int, items: seq<Item>, dataType: Word32, values: Word64, size: nat,
                    address: (nat, nat) -> Addr)
    returns (got: Option<Reply>)
    requires QueryFor(words, resource, systemId, filter).WellFormed() && result in {0, -1}
    requires 8 + |QueryFor(words, resource, systemId, filter).Bytes()| <= 10000 <= size
    requires |items| <= INT_MAX && AllRepresentable(items)
      && ReplyFits(QueryFor(words, resource, systemId, filter), items)
    ensures got == Delivery(QueryFor(words, resource, systemId, filter), result, dataType, items, AllComplete(items))
  {
    ghost var q := QueryFor(words, resource, systemId, filter);
    var xbuf, len := ComposeRequest(words, resource, systemId, filter);
    var reply, h := Serve(xbuf[..len], filter.Some?, result, items, dataType, values, size, address, q);
    SkipIsTail(words, resource, systemId, filter);
    got := Deliver(reply, ReplySkip(resource, systemId, filter.Some?), h,
                   Delivery(q, result, dataType, items, AllComplete(items)));
  }
}
