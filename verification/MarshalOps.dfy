/** The marshalling operations on a buffer: every write stays below `mbuflen`, and the parsers read back from
    the buffer itself (marshal.c). */
module MarshalOps {
  import opened CBytes
  import opened Wire
  import opened Marshal

  /** Outcome of an attempt to write `b` at `offset`: it succeeds exactly if the data is acceptable and fits; a
      failed attempt may have written some of it, but nothing before `offset` or from `mbuflen` on. */
  ghost predicate Outcome(was: seq<byte>, now: seq<byte>, offset: nat, mbuflen: nat, b: seq<byte>, acceptable: bool,
                          rc: int, offset': nat) {
    && offset <= offset' <= mbuflen <= |was| == |now|
    && rc == (if acceptable && offset + |b| <= mbuflen then 0 else -1)
    && now[..offset] == was[..offset] && now[mbuflen..] == was[mbuflen..]
    && (rc == 0 ==> offset' == offset + |b| && Wrote(was, now, offset, b))
  }

  /** One write after another, the second only if the first succeeded. */
  lemma Then(s: seq<byte>, t: seq<byte>, u: seq<byte>, off: nat, len: nat, b1: seq<byte>, ok1: bool, rc1: int,
             off1: nat, b2: seq<byte>, ok2: bool, rc2: int, off2: nat)
    requires Outcome(s, t, off, len, b1, ok1, rc1, off1)
    requires if rc1 == 0 then Outcome(t, u, off1, len, b2, ok2, rc2, off2) else u == t && rc2 == rc1 && off2 == off1
    ensures Outcome(s, u, off, len, b1 + b2, ok1 && ok2, rc2, off2)
  {
    if rc1 == 0 {
      assert u[..off] == u[..off1][..off] && t[..off] == t[..off1][..off];
      if rc2 == 0 {
        WroteMore(s, t, u, off, b1, b2);
      }
    }
  }

  method PutData(data: Option<seq<byte>>, mbuf: array<byte>, offset: nat, mbuflen: nat) returns (rc: int, offset': nat)
    requires offset <= mbuflen <= mbuf.Length
    modifies mbuf
    ensures Outcome(old(mbuf[..]), mbuf[..], offset, mbuflen,
                    if data.Some? then data.value else [], data.Some?, rc, offset')
  {
    ghost var was := mbuf[..];
    rc, offset' := MarshalData(data, mbuf, offset, mbuflen);
    assert rc == 0 ==> mbuf[..][mbuflen..] == was[mbuflen..];
  }

  method PutString(str: CStr, mbuf: array<byte>, offset: nat, mbuflen: nat) returns (rc: int, offset': nat)
    requires offset <= mbuflen <= mbuf.Length
    modifies mbuf
    ensures Outcome(old(mbuf[..]), mbuf[..], offset, mbuflen, str.Bytes(), true, rc, offset')
  {
    ghost var was := mbuf[..];
    rc, offset' := MarshalString(str, mbuf, offset, mbuflen, false);
    assert rc == 0 ==> mbuf[..][mbuflen..] == was[mbuflen..];
  }

  method PutTwo(a: CStr, b: CStr, mbuf: array<byte>, offset: nat, mbuflen: nat) returns (rc: int, offset': nat)
    requires offset <= mbuflen <= mbuf.Length
    modifies mbuf
    ensures Outcome(old(mbuf[..]), mbuf[..], offset, mbuflen, a.Bytes() + b.Bytes(), true, rc, offset')
  {
    ghost var was := mbuf[..];
    rc, offset' := PutString(a, mbuf, offset, mbuflen);
    ghost var mid, rc1, off1 := mbuf[..], rc, offset';
    if rc == 0 {
      rc, offset' := PutString(b, mbuf, offset', mbuflen);
    }
    Then(was, mid, mbuf[..], offset, mbuflen, a.Bytes(), true, rc1, off1, b.Bytes(), true, rc, offset');
  }

  method PutItem(i: Item, mbuf: array<byte>, offset: nat, mbuflen: nat) returns (rc: int, offset': nat)
    requires offset <= mbuflen <= mbuf.Length
    modifies mbuf
    ensures Outcome(old(mbuf[..]), mbuf[..], offset, mbuflen, i.Payload(), i.valueAddr != 0, rc, offset')
  {
    ghost var was := mbuf[..];
    rc, offset' := PutData(if i.valueAddr == 0 then None else Some(i.value), mbuf, offset, mbuflen);
    ghost var mid, rc1, off1 := mbuf[..], rc, offset';
    if rc == 0 {
      rc, offset' := PutTwo(i.resource, i.systemId, mbuf, offset', mbuflen);
    }
    Then(was, mid, mbuf[..], offset, mbuflen, if i.valueAddr == 0 then [] else i.value, i.valueAddr != 0, rc1, off1,
         i.resource.Bytes() + i.systemId.Bytes(), true, rc, offset');
  }

  ghost predicate Addressed(items: seq<Item>) {
    forall k :: 0 <= k < |items| ==> items[k].valueAddr != 0
  }

  method PutItems(items: seq<Item>, mbuf: array<byte>, offset: nat, mbuflen: nat) returns (rc: int, offset': nat)
    requires offset <= mbuflen <= mbuf.Length
    modifies mbuf
    ensures Outcome(old(mbuf[..]), mbuf[..], offset, mbuflen, Payloads(items), Addressed(items), rc, offset')
  {
    ghost var was := mbuf[..];
    rc, offset' := 0, offset;
    var i := 0;
    while i < |items| && rc == 0
      invariant 0 <= i <= |items|
      invariant Outcome(was, mbuf[..], offset, mbuflen, Payloads(items[..i]), Addressed(items[..i]), rc, offset')
    {
      ghost var mid, off1 := mbuf[..], offset';
      rc, offset' := PutItem(items[i], mbuf, offset', mbuflen);
      OneMoreItem(was, mid, mbuf[..], offset, mbuflen, items, i, off1, rc, offset');
      i := i + 1;
    }
    SomeOfItems(items, i);
    OutcomeExtends(was, mbuf[..], offset, mbuflen, Payloads(items[..i]), Addressed(items[..i]), rc, offset',
                   Payloads(items), Addressed(items), i == |items|);
  }

  lemma OneMoreItem(s: seq<byte>, t: seq<byte>, u: seq<byte>, off: nat, len: nat, items: seq<Item>, i: nat, off1: nat,
                    rc: int, off2: nat)
    requires i < |items|
    requires Outcome(s, t, off, len, Payloads(items[..i]), Addressed(items[..i]), 0, off1)
    requires Outcome(t, u, off1, len, items[i].Payload(), items[i].valueAddr != 0, rc, off2)
    ensures Outcome(s, u, off, len, Payloads(items[..i + 1]), Addressed(items[..i + 1]), rc, off2)
  {
    Then(s, t, u, off, len, Payloads(items[..i]), Addressed(items[..i]), 0, off1, items[i].Payload(),
         items[i].valueAddr != 0, rc, off2);
    OneMorePayload(items, i);
    OneMoreAddressed(items, i);
  }

  /** A failure on a part is a failure on the whole. */
  lemma OutcomeExtends(s: seq<byte>, t: seq<byte>, off: nat, len: nat, part: seq<byte>, ok: bool, rc: int, off': nat,
                       all: seq<byte>, allOk: bool, complete: bool)
    requires Outcome(s, t, off, len, part, ok, rc, off') && |part| <= |all| && (allOk ==> ok)
    requires complete ==> part == all && ok == allOk
    requires !complete ==> rc != 0
    ensures Outcome(s, t, off, len, all, allOk, rc, off')
  {
  }

  lemma SomeOfItems(items: seq<Item>, i: nat)
    requires i <= |items|
    ensures |Payloads(items[..i])| <= |Payloads(items)| && (Addressed(items) ==> Addressed(items[..i]))
    ensures items[..|items|] == items
  {
    PayloadsSplit(items, i);
  }

  lemma OneMoreAddressed(items: seq<Item>, i: nat)
    requires i < |items|
    ensures Addressed(items[..i + 1]) <==> Addressed(items[..i]) && items[i].valueAddr != 0
  {
    assert items[..i + 1][i] == items[i];
    assert forall k :: 0 <= k < i ==> items[..i + 1][k] == items[..i][k];
  }

  method PutHead(words: seq<nat>, widths: seq<nat>, a: CStr, b: CStr, mbuf: array<byte>, offset: nat, mbuflen: nat)
    returns (rc: int, offset': nat)
    requires offset <= mbuflen <= mbuf.Length && |words| == |widths|
    modifies mbuf
    ensures Outcome(old(mbuf[..]), mbuf[..], offset, mbuflen, Pack(words, widths) + (a.Bytes() + b.Bytes()), true, rc,
                    offset')
  {
    ghost var was := mbuf[..];
    rc, offset' := PutData(Some(Pack(words, widths)), mbuf, offset, mbuflen);
    ghost var mid, rc1, off1 := mbuf[..], rc, offset';
    if rc == 0 {
      rc, offset' := PutTwo(a, b, mbuf, offset', mbuflen);
    }
    Then(was, mid, mbuf[..], offset, mbuflen, Pack(words, widths), true, rc1, off1, a.Bytes() + b.Bytes(), true, rc,
         offset');
  }

  method PutValues(vr: Request, mbuf: array<byte>, offset: nat, mbuflen: nat) returns (rc: int, offset': nat)
    requires offset <= mbuflen <= mbuf.Length
    modifies mbuf
    ensures Outcome(old(mbuf[..]), mbuf[..], offset, mbuflen, Structs(vr.items) + Payloads(vr.items), vr.Sendable(), rc,
                    offset')
  {
    ghost var was := mbuf[..];
    rc, offset' := PutData(if vr.valuesAddr == 0 then None else Some(Structs(vr.items)), mbuf, offset, mbuflen);
    ghost var mid, rc1, off1 := mbuf[..], rc, offset';
    if rc == 0 {
      rc, offset' := PutItems(vr.items, mbuf, offset', mbuflen);
    }
    Then(was, mid, mbuf[..], offset, mbuflen,
         if vr.valuesAddr == 0 then [] else Structs(vr.items), vr.valuesAddr != 0, rc1, off1,
         Payloads(vr.items), Addressed(vr.items), rc, offset');
  }

  /** Succeeds exactly if no data pointer is NULL and the request fits; then its bytes stand in the buffer. */
  method MarshalValueRequest(vr: Request, mbuf: array<byte>, offset: nat, mbuflen: nat) returns (rc: int, offset': nat)
    requires offset <= mbuflen <= mbuf.Length
    modifies mbuf
    ensures Outcome(old(mbuf[..]), mbuf[..], offset, mbuflen, vr.Bytes(), vr.Sendable(), rc, offset')
  {
    ghost var was := mbuf[..];
    rc, offset' := PutHead(vr.Words(), REQUEST_WIDTHS, vr.resource, vr.systemId, mbuf, offset, mbuflen);
    ghost var mid, rc1, off1 := mbuf[..], rc, offset';
    if rc == 0 {
      rc, offset' := PutValues(vr, mbuf, offset', mbuflen);
    }
    Then(was, mid, mbuf[..], offset, mbuflen,
         Pack(vr.Words(), REQUEST_WIDTHS) + (vr.resource.Bytes() + vr.systemId.Bytes()), true,
         rc1, off1, Structs(vr.items) + Payloads(vr.items), vr.Sendable(), rc, offset');
    RequestParts(vr);
  }

  lemma RequestParts(vr: Request)
    ensures vr.Bytes() == (Pack(vr.Words(), REQUEST_WIDTHS) + (vr.resource.Bytes() + vr.systemId.Bytes()))
      + (Structs(vr.items) + Payloads(vr.items))
  {
    TwoBytes(vr.resource, vr.systemId);
    Regroup(Pack(vr.Words(), REQUEST_WIDTHS), AllBytes(vr.Strings()), Structs(vr.items) + Payloads(vr.items));
  }

  lemma TwoBytes(a: CStr, b: CStr)
    ensures AllBytes([a, b]) == a.Bytes() + b.Bytes()
  {
    MoreBytes(a, [b]);
    MoreBytes(b, []);
    assert b.Bytes() + [] == b.Bytes();
  }

  lemma MoreBytes(a: CStr, rest: seq<CStr>)
    ensures AllBytes([a] + rest) == a.Bytes() + AllBytes(rest)
    ensures [a] + [] == [a] && forall b :: [a] + [b] == [a, b]
    ensures AllBytes([]) == []
  {
    assert ([a] + rest)[1..] == rest;
  }

  method MarshalSubscriptionRequest(sr: Subscription, mbuf: array<byte>, offset: nat, mbuflen: nat)
    returns (rc: int, offset': nat)
    requires offset <= mbuflen <= mbuf.Length
    modifies mbuf
    ensures Outcome(old(mbuf[..]), mbuf[..], offset, mbuflen, sr.Bytes(), true, rc, offset')
  {
    ghost var was := mbuf[..];
    rc, offset' := PutHead(sr.Words(), SUBSCRIPTION_WIDTHS, sr.resource, sr.systemId, mbuf, offset, mbuflen);
    ghost var mid, rc1, off1 := mbuf[..], rc, offset';
    if rc == 0 {
      rc, offset' := PutString(sr.value, mbuf, offset', mbuflen);
    }
    ghost var h := Pack(sr.Words(), SUBSCRIPTION_WIDTHS);
    Then(was, mid, mbuf[..], offset, mbuflen, h + (sr.resource.Bytes() + sr.systemId.Bytes()), true,
         rc1, off1, sr.value.Bytes(), true, rc, offset');
    SubscriptionParts(sr);
  }

  lemma SubscriptionParts(sr: Subscription)
    ensures sr.Bytes()
      == (Pack(sr.Words(), SUBSCRIPTION_WIDTHS) + (sr.resource.Bytes() + sr.systemId.Bytes())) + sr.value.Bytes()
  {
    var h, a, b, c := Pack(sr.Words(), SUBSCRIPTION_WIDTHS), sr.resource.Bytes(), sr.systemId.Bytes(), sr.value.Bytes();
    MoreBytes(sr.resource, [sr.systemId, sr.value]);
    TwoBytes(sr.systemId, sr.value);
    assert [sr.resource] + [sr.systemId, sr.value] == sr.Strings();
    Regroup(h, a + b, c);
    Regroup(a, b, c);
  }

  lemma {:induction false} DefinitionStringsSplit(ds: seq<Definition>, i: nat)
    requires i <= |ds|
    ensures DefinitionStrings(ds) == DefinitionStrings(ds[..i]) + DefinitionStrings(ds[i..])
  {
    if i > 0 {
      DefinitionStringsSplit(ds[1..], i - 1);
      assert ds[..i][1..] == ds[1..][..i - 1] && ds[1..][i - 1..] == ds[i..];
    } else {
      assert ds[..0] == [] && ds[0..] == ds;
    }
  }

  lemma OneMoreDefinition(ds: seq<Definition>, i: nat)
    requires i < |ds|
    ensures DefinitionStrings(ds[..i + 1]) == DefinitionStrings(ds[..i]) + (ds[i].units.Bytes() + ds[i].name.Bytes())
  {
    var p := ds[..i + 1];
    assert p[..i] == ds[..i] && p[i..] == [ds[i]];
    DefinitionStringsSplit(p, i);
    assert [ds[i]][1..] == [];
    TwoBytes(ds[i].units, ds[i].name);
    assert DefinitionStrings([ds[i]]) == ds[i].units.Bytes() + ds[i].name.Bytes();
  }

  method PutDefinitionStrings(ds: seq<Definition>, mbuf: array<byte>, offset: nat, mbuflen: nat)
    returns (rc: int, offset': nat)
    requires offset <= mbuflen <= mbuf.Length
    modifies mbuf
    ensures Outcome(old(mbuf[..]), mbuf[..], offset, mbuflen, DefinitionStrings(ds), true, rc, offset')
  {
    ghost var was := mbuf[..];
    rc, offset' := 0, offset;
    var i := 0;
    while i < |ds| && rc == 0
      invariant 0 <= i <= |ds|
      invariant Outcome(was, mbuf[..], offset, mbuflen, DefinitionStrings(ds[..i]), true, rc, offset')
    {
      ghost var mid, off1 := mbuf[..], offset';
      rc, offset' := PutTwo(ds[i].units, ds[i].name, mbuf, offset', mbuflen);
      Then(was, mid, mbuf[..], offset, mbuflen, DefinitionStrings(ds[..i]), true, 0, off1,
           ds[i].units.Bytes() + ds[i].name.Bytes(), true, rc, offset');
      OneMoreDefinition(ds, i);
      i := i + 1;
    }
    DefinitionStringsSplit(ds, i);
    assert i == |ds| ==> ds[..i] == ds;
    OutcomeExtends(was, mbuf[..], offset, mbuflen, DefinitionStrings(ds[..i]), true, rc, offset', DefinitionStrings(ds),
                   true, i == |ds|);
  }

  /** `marshal_reposplugindefinition` for a non-NULL array. */
  method MarshalDefinitions(ds: seq<Definition>, mbuf: array<byte>, offset: nat, mbuflen: nat)
    returns (rc: int, offset': nat)
    requires offset <= mbuflen <= mbuf.Length
    modifies mbuf
    ensures Outcome(old(mbuf[..]), mbuf[..], offset, mbuflen, DefinitionBytes(ds), true, rc, offset')
  {
    ghost var was := mbuf[..];
    rc, offset' := PutData(Some(DefinitionStructs(ds)), mbuf, offset, mbuflen);
    ghost var mid, rc1, off1 := mbuf[..], rc, offset';
    if rc == 0 {
      rc, offset' := PutDefinitionStrings(ds, mbuf, offset', mbuflen);
    }
    Then(was, mid, mbuf[..], offset, mbuflen, DefinitionStructs(ds), true, rc1, off1, DefinitionStrings(ds), true, rc,
         offset');
  }

  // ----- unmarshalling -----

  function Unread(mbuf: seq<byte>, offset: nat, mbuflen: nat): seq<byte>
    requires offset <= mbuflen <= |mbuf|
  {
    mbuf[offset..mbuflen]
  }

  /** What a read of type `T` leaves: `None` and an error return, or the value and the offset of the unread bytes. */
  ghost predicate Read<T>(r: Option<(T, seq<byte>)>, mbuf: seq<byte>, mbuflen: nat, rc: int, v: Option<T>,
                          offset': nat) {
    if rc == 0 then offset' <= mbuflen <= |mbuf| && v.Some? && r == Some((v.value, Unread(mbuf, offset', mbuflen)))
    else rc == -1 && r == None
  }

  /** After a successful write, a reader at the old offset meets the written bytes, then what a reader at the new
      offset meets. */
  lemma WrittenIsUnread(was: seq<byte>, now: seq<byte>, offset: nat, mbuflen: nat, b: seq<byte>, ok: bool, offset': nat)
    requires Outcome(was, now, offset, mbuflen, b, ok, 0, offset')
    ensures Unread(now, offset, mbuflen) == b + Unread(now, offset', mbuflen)
  {
  }

  /** Whatever `MarshalValueRequest` has put into a buffer, `UnmarshalValueRequest` takes out of it. */
  lemma ValueRequestInBuffer(vr: Request, was: seq<byte>, now: seq<byte>, offset: nat, mbuflen: nat, offset': nat)
    requires Outcome(was, now, offset, mbuflen, vr.Bytes(), vr.Sendable(), 0, offset') && vr.Representable()
    ensures GetRequest(Unread(now, offset, mbuflen)) == Some((vr.View(), Unread(now, offset', mbuflen)))
  {
    WrittenIsUnread(was, now, offset, mbuflen, vr.Bytes(), vr.Sendable(), offset');
    RequestRoundTrip(vr, Unread(now, offset', mbuflen));
  }

  lemma SubscriptionInBuffer(sr: Subscription, was: seq<byte>, now: seq<byte>, offset: nat, mbuflen: nat, offset': nat)
    requires Outcome(was, now, offset, mbuflen, sr.Bytes(), true, 0, offset')
    ensures GetSubscription(Unread(now, offset, mbuflen)) == Some((sr.View(), Unread(now, offset', mbuflen)))
  {
    WrittenIsUnread(was, now, offset, mbuflen, sr.Bytes(), true, offset');
    SubscriptionRoundTrip(sr, Unread(now, offset', mbuflen));
  }

  lemma {:induction false} DefinitionsInBuffer(ds: seq<Definition>, was: seq<byte>, now: seq<byte>, offset: nat,
                                               mbuflen: nat, offset': nat)
    requires Outcome(was, now, offset, mbuflen, DefinitionBytes(ds), true, 0, offset')
    ensures GetDefinitions(Unread(now, offset, mbuflen), |ds|)
      == Some((DefinitionViews(ds), Unread(now, offset', mbuflen)))
  {
    WrittenIsUnread(was, now, offset, mbuflen, DefinitionBytes(ds), true, offset');
    DefinitionsRoundTrip(ds, Unread(now, offset', mbuflen));
  }

  method UnmarshalWords(widths: seq<nat>, mbuf: array<byte>, offset: nat, mbuflen: nat)
    returns (rc: int, w: Option<seq<nat>>, offset': nat)
    requires offset <= mbuflen <= mbuf.Length
    ensures Read(GetWords(Unread(mbuf[..], offset, mbuflen), widths), mbuf[..], mbuflen, rc, w, offset')
  {
    var data;
    rc, data, offset' := UnmarshalData(Size(widths), mbuf, offset, mbuflen);
    w := None;
    assert mbuf[..][offset..mbuflen] == mbuf[offset..mbuflen];
    if rc == 0 {
      w := Some(Unpack(data, widths));
      assert mbuf[..][offset'..mbuflen] == mbuf[offset'..mbuflen];
    }
  }

  method UnmarshalItem(w: seq<nat>, mbuf: array<byte>, offset: nat, mbuflen: nat)
    returns (rc: int, v: Option<ItemView>, offset': nat)
    requires offset <= mbuflen <= mbuf.Length && |w| == 6
    ensures Read(GetItem(w, Unread(mbuf[..], offset, mbuflen)), mbuf[..], mbuflen, rc, v, offset')
  {
    assert forall o :: 0 <= o <= mbuflen ==> mbuf[..][o..mbuflen] == mbuf[o..mbuflen];
    v := None;
    var value, resource, systemId;
    rc, value, offset' := UnmarshalData(w[2], mbuf, offset, mbuflen);
    if rc == 0 {
      rc, resource, offset' := UnmarshalString(w[4], mbuf, offset', mbuflen);
      if rc == 0 {
        rc, systemId, offset' := UnmarshalString(w[5], mbuf, offset', mbuflen);
        if rc == 0 {
          v := Some(ItemView(w[0], w[1], value, resource, systemId));
        }
      }
    }
  }

  method UnmarshalRows(widths: seq<nat>, n: nat, mbuf: array<byte>, offset: nat, mbuflen: nat)
    returns (rc: int, ws: seq<seq<nat>>, offset': nat)
    requires offset <= mbuflen <= mbuf.Length
    ensures forall k :: 0 <= k < |ws| ==> |ws[k]| == |widths|
    ensures Read(GetRows(Unread(mbuf[..], offset, mbuflen), widths, n), mbuf[..], mbuflen, rc, Some(ws), offset')
  {
    var data;
    ws := [];
    RowsInOnePiece(Unread(mbuf[..], offset, mbuflen), widths, n);
    assert forall o :: 0 <= o <= mbuflen ==> mbuf[..][o..mbuflen] == mbuf[o..mbuflen];
    rc, data, offset' := UnmarshalData(Size(widths) * n, mbuf, offset, mbuflen);
    if rc == 0 {
      ws := UnpackAll(data, widths, n);
    }
  }

  method UnmarshalItems(ws: seq<seq<nat>>, mbuf: array<byte>, offset: nat, mbuflen: nat)
    returns (rc: int, items: seq<ItemView>, offset': nat)
    requires offset <= mbuflen <= mbuf.Length && forall k :: 0 <= k < |ws| ==> |ws[k]| == 6
    ensures Read(GetItems(ws, Unread(mbuf[..], offset, mbuflen)), mbuf[..], mbuflen, rc, Some(items), offset')
  {
    rc, items, offset' := 0, [], offset;
    ghost var want := GetItems(ws, Unread(mbuf[..], offset, mbuflen));
    var i := 0;
    assert ws[0..] == ws && (want.Some? ==> [] + want.value.0 == want.value.0);
    while i < |ws|
      invariant 0 <= i <= |ws| && offset' <= mbuflen && rc == 0
      invariant want == Prepend(items, GetItems(ws[i..], Unread(mbuf[..], offset', mbuflen)))
    {
      var v;
      NextItem(items, ws, i, Unread(mbuf[..], offset', mbuflen));
      rc, v, offset' := UnmarshalItem(ws[i], mbuf, offset', mbuflen);
      if rc != 0 {
        return;
      }
      items := items + [v.value];
      i := i + 1;
    }
    assert ws[i..] == [] && items + [] == items;
  }

  /** Unmarshals a request in place: what it returns is what `GetRequest` says of the unread bytes. */
  method UnmarshalValueRequest(mbuf: array<byte>, offset: nat, mbuflen: nat)
    returns (rc: int, vr: Option<RequestView>, offset': nat)
    requires offset <= mbuflen <= mbuf.Length
    ensures Read(GetRequest(Unread(mbuf[..], offset, mbuflen)), mbuf[..], mbuflen, rc, vr, offset')
  {
    assert forall o :: 0 <= o <= mbuflen ==> mbuf[..][o..mbuflen] == mbuf[o..mbuflen];
    vr := None;
    var w, resource, systemId, ws, items;
    rc, w, offset' := UnmarshalWords(REQUEST_WIDTHS, mbuf, offset, mbuflen);
    if rc != 0 { return; }
    var h := w.value;
    ghost var b1 := Unread(mbuf[..], offset', mbuflen);
    PairRead(h[2], h[3], b1);
    rc, resource, offset' := UnmarshalString(h[2], mbuf, offset', mbuflen);
    if rc != 0 { return; }
    rc, systemId, offset' := UnmarshalString(h[3], mbuf, offset', mbuflen);
    if rc != 0 { return; }
    rc, ws, offset' := UnmarshalRows(ITEM_WIDTHS, h[7], mbuf, offset', mbuflen);
    if rc != 0 { return; }
    rc, items, offset' := UnmarshalItems(ws, mbuf, offset', mbuflen);
    if rc != 0 { return; }
    vr := Some(RequestView(h[0], resource, systemId, h[4], h[5], h[6], items));
  }

  method UnmarshalSubscriptionRequest(mbuf: array<byte>, offset: nat, mbuflen: nat)
    returns (rc: int, sr: Option<SubscriptionView>, offset': nat)
    requires offset <= mbuflen <= mbuf.Length
    ensures Read(GetSubscription(Unread(mbuf[..], offset, mbuflen)), mbuf[..], mbuflen, rc, sr, offset')
  {
    assert forall o :: 0 <= o <= mbuflen ==> mbuf[..][o..mbuflen] == mbuf[o..mbuflen];
    sr := None;
    var w, resource, systemId, value;
    rc, w, offset' := UnmarshalWords(SUBSCRIPTION_WIDTHS, mbuf, offset, mbuflen);
    if rc != 0 { return; }
    var h := w.value;
    TripleRead(h[4], h[7], h[10], Unread(mbuf[..], offset', mbuflen));
    rc, resource, offset' := UnmarshalString(h[4], mbuf, offset', mbuflen);
    if rc != 0 { return; }
    rc, systemId, offset' := UnmarshalString(h[7], mbuf, offset', mbuflen);
    if rc != 0 { return; }
    rc, value, offset' := UnmarshalString(h[10], mbuf, offset', mbuflen);
    if rc != 0 { return; }
    sr := Some(SubscriptionView(h[0], h[1], h[2], resource, h[5], systemId, h[8], value, h[11]));
  }

  lemma TripleRead(a: nat, b: nat, c: nat, d: seq<byte>)
    ensures GetStrings([a, b, c], d) ==
      var x := GetString(a, d);
      if x.None? then None
      else
        var y := GetString(b, x.value.1);
        if y.None? then None
        else
          var z := GetString(c, y.value.1);
          if z.None? then None else Some(([x.value.0, y.value.0, z.value.0], z.value.1))
  {
    assert [a, b, c][1..] == [b, c];
    var x := GetString(a, d);
    if x.Some? {
      PairRead(b, c, x.value.1);
      var r := GetStrings([b, c], x.value.1);
      assert r.Some? ==> [x.value.0] + r.value.0 == [x.value.0, r.value.0[0], r.value.0[1]];
    }
  }

  lemma PairRead(a: nat, b: nat, d: seq<byte>)
    ensures GetStrings([a, b], d) ==
      var x := GetString(a, d);
      if x.None? then None
      else var y := GetString(b, x.value.1); if y.None? then None else Some(([x.value.0, y.value.0], y.value.1))
  {
    assert [a, b][1..] == [b] && [b][1..] == [];
    var x := GetString(a, d);
    if x.Some? {
      var y := GetString(b, x.value.1);
      if y.Some? {
        assert GetStrings([b], x.value.1) == Some(([y.value.0] + [], y.value.1));
        assert [x.value.0] + ([y.value.0] + []) == [x.value.0, y.value.0];
      }
    }
  }

  method UnmarshalDefinitions(n: nat, mbuf: array<byte>, offset: nat, mbuflen: nat)
    returns (rc: int, ds: seq<DefinitionView>, offset': nat)
    requires offset <= mbuflen <= mbuf.Length
    ensures Read(GetDefinitions(Unread(mbuf[..], offset, mbuflen), n), mbuf[..], mbuflen, rc, Some(ds), offset')
  {
    ds := [];
    var ws;
    rc, ws, offset' := UnmarshalRows(DEFINITION_WIDTHS, n, mbuf, offset, mbuflen);
    if rc == 0 {
      rc, ds, offset' := UnmarshalDefinitionStrings(ws, mbuf, offset', mbuflen);
    }
  }

  method UnmarshalDefinitionStrings(ws: seq<seq<nat>>, mbuf: array<byte>, offset: nat, mbuflen: nat)
    returns (rc: int, ds: seq<DefinitionView>, offset': nat)
    requires offset <= mbuflen <= mbuf.Length && forall k :: 0 <= k < |ws| ==> |ws[k]| == 9
    ensures Read(GetDefinitionStrings(ws, Unread(mbuf[..], offset, mbuflen)), mbuf[..], mbuflen, rc, Some(ds), offset')
  {
    rc, ds, offset' := 0, [], offset;
    ghost var want := GetDefinitionStrings(ws, Unread(mbuf[..], offset, mbuflen));
    var i := 0;
    assert ws[0..] == ws && (want.Some? ==> [] + want.value.0 == want.value.0);
    while i < |ws|
      invariant 0 <= i <= |ws| && offset' <= mbuflen && rc == 0
      invariant want == Prepend(ds, GetDefinitionStrings(ws[i..], Unread(mbuf[..], offset', mbuflen)))
    {
      var v;
      NextDefinition(ds, ws, i, Unread(mbuf[..], offset', mbuflen));
      rc, v, offset' := UnmarshalDefinition(ws[i], mbuf, offset', mbuflen);
      if rc != 0 {
        return;
      }
      ds := ds + [v.value];
      i := i + 1;
    }
    assert ws[i..] == [] && ds + [] == ds;
  }

  method UnmarshalDefinition(w: seq<nat>, mbuf: array<byte>, offset: nat, mbuflen: nat)
    returns (rc: int, v: Option<DefinitionView>, offset': nat)
    requires offset <= mbuflen <= mbuf.Length && |w| == 9
    ensures Read(GetDefinition(w, Unread(mbuf[..], offset, mbuflen)), mbuf[..], mbuflen, rc, v, offset')
  {
    assert forall o :: 0 <= o <= mbuflen ==> mbuf[..][o..mbuflen] == mbuf[o..mbuflen];
    v := None;
    var units, name;
    PairRead(w[7], w[8], Unread(mbuf[..], offset, mbuflen));
    rc, units, offset' := UnmarshalString(w[7], mbuf, offset, mbuflen);
    if rc == 0 {
      rc, name, offset' := UnmarshalString(w[8], mbuf, offset', mbuflen);
      if rc == 0 {
        v := Some(DefinitionView(w[0], w[1], w[2], w[3], w[4], w[6], units, name));
      }
    }
  }
}
