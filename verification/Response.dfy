/** The answer to a value query: the repository daemon encodes the items behind the request in its own growing
    buffer (reposd.c), the client picks them out of what it receives (rrepos.c). */
module Response {
  import opened CBytes
  import opened Wire
  import opened Marshal

  // ----- overwriting fields of structs in a buffer -----

  /** `b` with `c` written over it at `pos`. */
  function Patch(b: seq<byte>, pos: nat, c: seq<byte>): (r: seq<byte>)
    requires pos + |c| <= |b|
    ensures |r| == |b|
  {
    b[..pos] + c + b[pos + |c|..]
  }

  lemma PatchRight(a: seq<byte>, b: seq<byte>, pos: nat, c: seq<byte>)
    requires pos + |c| <= |b|
    ensures Patch(a + b, |a| + pos, c) == a + Patch(b, pos, c)
  {
    assert (a + b)[..|a| + pos] == a + b[..pos] && (a + b)[|a| + pos + |c|..] == b[pos + |c|..];
  }

  lemma PatchLeft(a: seq<byte>, b: seq<byte>, pos: nat, c: seq<byte>)
    requires pos + |c| <= |a|
    ensures Patch(a + b, pos, c) == Patch(a, pos, c) + b
  {
    assert (a + b)[..pos] == a[..pos] && (a + b)[pos + |c|..] == a[pos + |c|..] + b;
  }

  function With(words: seq<nat>, k: nat, v: nat): seq<nat>
    requires k < |words|
  {
    words[k := v]
  }

  /** The offset of field `k` in a struct. */
  function Offset(widths: seq<nat>, k: nat): (o: nat)
    requires k < |widths|
    ensures o + widths[k] <= Size(widths)
  {
    if k == 0 then 0 else widths[0] + Offset(widths[1..], k - 1)
  }

  lemma {:induction false} PatchWord(words: seq<nat>, widths: seq<nat>, k: nat, v: nat)
    requires k < |words| == |widths|
    ensures Pack(With(words, k, v), widths) == Patch(Pack(words, widths), Offset(widths, k), Little(v, widths[k]))
  {
    if k == 0 {
      PatchFirst(words, widths, v);
    } else {
      PatchWord(words[1..], widths[1..], k - 1, v);
      PatchLater(words, widths, k, v);
    }
  }

  lemma PatchFirst(words: seq<nat>, widths: seq<nat>, v: nat)
    requires 0 < |words| == |widths|
    ensures Pack(With(words, 0, v), widths) == Patch(Pack(words, widths), 0, Little(v, widths[0]))
  {
    assert With(words, 0, v)[1..] == words[1..];
    PatchLeft(Little(words[0], widths[0]), Pack(words[1..], widths[1..]), 0, Little(v, widths[0]));
  }

  lemma PatchLater(words: seq<nat>, widths: seq<nat>, k: nat, v: nat)
    requires 0 < k < |words| == |widths|
    requires var t, o := Pack(words[1..], widths[1..]), Offset(widths[1..], k - 1);
      Pack(With(words[1..], k - 1, v), widths[1..]) == Patch(t, o, Little(v, widths[k]))
    ensures Pack(With(words, k, v), widths) == Patch(Pack(words, widths), Offset(widths, k), Little(v, widths[k]))
  {
    assert With(words, k, v)[1..] == With(words[1..], k - 1, v);
    PatchRight(Little(words[0], widths[0]), Pack(words[1..], widths[1..]), Offset(widths[1..], k - 1),
               Little(v, widths[k]));
  }

  lemma PatchStruct(before: seq<byte>, words: seq<nat>, widths: seq<nat>, after: seq<byte>, k: nat, v: nat)
    requires k < |words| == |widths|
    ensures Patch(before + (Pack(words, widths) + after), |before| + Offset(widths, k), Little(v, widths[k]))
      == before + (Pack(With(words, k, v), widths) + after)
  {
    PatchWord(words, widths, k, v);
    PatchInside(before, Pack(words, widths), after, Offset(widths, k), Little(v, widths[k]));
  }

  lemma PatchInside(before: seq<byte>, b: seq<byte>, after: seq<byte>, pos: nat, c: seq<byte>)
    requires pos + |c| <= |b|
    ensures Patch(before + (b + after), |before| + pos, c) == before + (Patch(b, pos, c) + after)
  {
    PatchLeft(b, after, pos, c);
    PatchRight(before, b + after, pos, c);
  }

  function RowOffset(widths: seq<nat>, i: nat, k: nat): nat
    requires k < |widths|
  {
    if i == 0 then Offset(widths, k) else Size(widths) + RowOffset(widths, i - 1, k)
  }

  lemma {:induction false} PatchRow(rows: seq<seq<nat>>, widths: seq<nat>, i: nat, k: nat, v: nat)
    requires i < |rows| && k < |widths| && forall j :: 0 <= j < |rows| ==> |rows[j]| == |widths|
    ensures RowOffset(widths, i, k) + widths[k] <= |Rows(rows, widths)|
    ensures Rows(rows[i := With(rows[i], k, v)], widths)
      == Patch(Rows(rows, widths), RowOffset(widths, i, k), Little(v, widths[k]))
  {
    if i == 0 {
      PatchFirstRow(rows, widths, k, v);
    } else {
      var rest := rows[1..];
      assert rest[i - 1] == rows[i] && forall j :: 0 <= j < |rest| ==> |rest[j]| == |widths|;
      PatchRow(rest, widths, i - 1, k, v);
      PatchRight(Pack(rows[0], widths), Rows(rest, widths), RowOffset(widths, i - 1, k), Little(v, widths[k]));
      LaterRow(rows, widths, i, With(rows[i], k, v));
    }
  }

  lemma PatchFirstRow(rows: seq<seq<nat>>, widths: seq<nat>, k: nat, v: nat)
    requires 0 < |rows| && k < |widths| && forall j :: 0 <= j < |rows| ==> |rows[j]| == |widths|
    ensures Offset(widths, k) + widths[k] <= |Rows(rows, widths)|
    ensures Rows(rows[0 := With(rows[0], k, v)], widths)
      == Patch(Rows(rows, widths), Offset(widths, k), Little(v, widths[k]))
  {
    PatchWord(rows[0], widths, k, v);
    PatchLeft(Pack(rows[0], widths), Rows(rows[1..], widths), Offset(widths, k), Little(v, widths[k]));
    FirstRow(rows, widths, With(rows[0], k, v));
  }

  lemma FirstRow(rows: seq<seq<nat>>, widths: seq<nat>, row: seq<nat>)
    requires 0 < |rows| && |row| == |widths| && forall j :: 0 <= j < |rows| ==> |rows[j]| == |widths|
    ensures Rows(rows[0 := row], widths) == Pack(row, widths) + Rows(rows[1..], widths)
  {
    assert rows[0 := row][1..] == rows[1..];
  }

  lemma LaterRow(rows: seq<seq<nat>>, widths: seq<nat>, i: nat, row: seq<nat>)
    requires 0 < i < |rows| && |row| == |widths| && forall j :: 0 <= j < |rows| ==> |rows[j]| == |widths|
    ensures Rows(rows[i := row], widths) == Pack(rows[0], widths) + Rows(rows[1..][i - 1 := row], widths)
  {
    assert rows[i := row][1..] == rows[1..][i - 1 := row];
  }

  lemma {:induction false} WordsUpdated(items: seq<Item>, i: nat, x: Item)
    requires i < |items|
    ensures AllWords(items[i := x]) == AllWords(items)[i := x.Words()]
    ensures AllWords(items)[i] == items[i].Words()
  {
    if i == 0 {
      assert items[0 := x][1..] == items[1..];
    } else {
      assert items[i := x][1..] == items[1..][i - 1 := x];
      WordsUpdated(items[1..], i - 1, x);
    }
  }

  const FIELD_SIZE: nat := 8

  /** Where field `k` of item struct `i` lies behind the first struct; every field is eight bytes wide. */
  function FieldOffset(i: nat, k: nat): nat
  {
    SIZEOF_VALUEITEM * i + FIELD_SIZE * k
  }

  const SIZEOF_VALUEITEM: nat := 48

  lemma {:induction false} FieldOffsets(i: nat, k: nat)
    requires k < 6
    ensures FieldOffset(i, k) == RowOffset(ITEM_WIDTHS, i, k)
  {
    ItemSize();
    if i == 0 {
      EqualFields(ITEM_WIDTHS, k);
    } else {
      FieldOffsets(i - 1, k);
    }
  }

  lemma {:induction false} EqualFields(widths: seq<nat>, k: nat)
    requires k < |widths| && forall j :: 0 <= j < |widths| ==> widths[j] == FIELD_SIZE
    ensures Offset(widths, k) == FIELD_SIZE * k
  {
    if k > 0 {
      EqualFields(widths[1..], k - 1);
    }
  }

  lemma {:induction false} RowsSize(rows: seq<seq<nat>>, widths: seq<nat>)
    requires forall j :: 0 <= j < |rows| ==> |rows[j]| == |widths|
    ensures |Rows(rows, widths)| == Size(widths) * |rows|
  {
    if rows != [] {
      RowsSize(rows[1..], widths);
      MoreRows(Size(widths), |rows|);
    }
  }

  lemma StructsSize(items: seq<Item>)
    ensures |Structs(items)| == SIZEOF_VALUEITEM * |items|
  {
    ItemSize();
    RowsSize(AllWords(items), ITEM_WIDTHS);
  }

  /** Changing one field of item `i` in the transfer buffer, then appending. */
  lemma FieldStep(head: seq<byte>, sent: seq<Item>, done: seq<byte>, i: nat, k: nat, v: nat, x: Item, b: seq<byte>)
    requires i < |sent| && k < 6 && x.Words() == With(sent[i].Words(), k, v)
    ensures FieldOffset(i, k) + FIELD_SIZE <= |Structs(sent)|
    ensures Patch(head + (Structs(sent) + done), |head| + FieldOffset(i, k), Little(v, FIELD_SIZE)) + b
      == head + (Structs(sent[i := x]) + (done + b))
  {
    var s, pos, c := Structs(sent), FieldOffset(i, k), Little(v, FIELD_SIZE);
    FieldOffsets(i, k);
    WordsUpdated(sent, i, x);
    PatchRow(AllWords(sent), ITEM_WIDTHS, i, k, v);
    PatchLeft(s, done, pos, c);
    PatchRight(head, s + done, pos, c);
    Regroup(head, Patch(s, pos, c) + done, b);
    Regroup(Patch(s, pos, c), done, b);
  }

  lemma FieldInside(sent: seq<Item>, i: nat, k: nat)
    requires i < |sent| && k < 6
    ensures FieldOffset(i, k) + FIELD_SIZE <= |Structs(sent)|
  {
    StructsSize(sent);
  }

  // ----- the answer as a value -----

  /** `x` says the same as `item`; only the pointers may differ. */
  ghost predicate SamePayload(x: Item, item: Item) {
    && x.captureTime == item.captureTime && x.duration == item.duration && x.value == item.value
    && x.resource.Text() == item.resource.Text() && x.systemId.Text() == item.systemId.Text()
  }

  predicate Complete(item: Item) {
    item.resource.Ptr? && item.systemId.Ptr?
  }

  ghost predicate AllComplete(items: seq<Item>) {
    forall k :: 0 <= k < |items| ==> Complete(items[k])
  }

  /** `sent` is what the struct for `item` holds once its data has been sent along. */
  ghost predicate Delivers(sent: Item, item: Item) {
    SamePayload(sent, item) && Complete(sent)
  }

  ghost predicate DeliversAll(sent: seq<Item>, items: seq<Item>) {
    |sent| == |items| && forall k :: 0 <= k < |items| ==> Delivers(sent[k], items[k])
  }

  lemma {:induction false} DeliveredViews(sent: seq<Item>, items: seq<Item>)
    requires DeliversAll(sent, items)
    ensures Views(sent) == Views(items) && Payloads(sent) == Payloads(items)
    ensures AllRepresentable(items) ==> AllRepresentable(sent)
  {
    if items != [] {
      assert Delivers(sent[0], items[0]);
      assert forall k :: 0 <= k < |items[1..]| ==> sent[1..][k] == sent[k + 1] && items[1..][k] == items[k + 1];
      DeliveredViews(sent[1..], items[1..]);
      assert AllRepresentable(items) ==> AllRepresentable(items[1..]);
    }
  }

  /** The request a client sent: its struct, its strings and, for a filtered query, count and direction. */
  datatype Query = Query(words: seq<nat>, resource: CStr, systemId: CStr, filter: seq<byte>) {
    ghost predicate WellFormed() {
      && Fits(words, REQUEST_WIDTHS) && |filter| in {0, FILTER}
      && words[RESOURCE] == resource.Word() && words[SYSTEM_ID] == systemId.Word()
    }
    function Tail(): seq<byte> { resource.Bytes() + (systemId.Bytes() + filter) }
    function Bytes(): seq<byte>
      requires |words| == |REQUEST_WIDTHS|
    {
      Pack(words, REQUEST_WIDTHS) + Tail()
    }
  }

  /** `sizeof(size_t) + sizeof(int)`. */
  const FILTER: nat := 12
  const SIZEOF_COMM: nat := 8
  const SIZEOF_VALUEREQUEST: nat := 56
  const ID: nat := 0
  const RESOURCE: nat := 2
  const SYSTEM_ID: nat := 3
  const FROM: nat := 4
  const TO: nat := 5
  const DATA_TYPE: nat := 6
  const NUM_VALUES: nat := 7
  const VALUES: nat := 8

  /** The message header: command, result and length of the data behind it. */
  datatype Header = Header(cmd: Word16, result: Word16, datalen: Word32) {
    function Words(): seq<nat> { [cmd, result, datalen] }
    function Bytes(): seq<byte> { Pack(Words(), COMM_WIDTHS) }
  }

  const COMM_WIDTHS: seq<nat> := [2, 2, 4]
  const RESULT: nat := 1
  const DATALEN: nat := 2

  lemma CommSize()
    ensures Size(COMM_WIDTHS) == SIZEOF_COMM
  {
    SizeOf3(2, 2, 4);
  }

  /** A result as it is stored in a `short`, and as it is read from it. */
  function Stored(rc: int): Word16 { rc % 0x1_0000 }

  function ReadResult(w: Word16): int { if w < 0x8000 then w else w - 0x1_0000 }

  lemma StoredResult(rc: int)
    requires -0x8000 <= rc < 0x8000
    ensures Stored(rc) == (if rc < 0 then rc + 0x1_0000 else rc) && ReadResult(Stored(rc)) == rc
  {
  }

  /** What the client copies out of a reply. */
  datatype Reply = Reply(id: nat, from: nat, to: nat, dataType: nat, items: seq<ItemView>)

  function ReplyWith(words: seq<nat>, items: seq<ItemView>): Reply
    requires |words| == |REQUEST_WIDTHS|
  {
    Reply(words[ID], words[FROM], words[TO], words[DATA_TYPE], items)
  }

  /** The client's own request, with the type and the values found. */
  function TypedReply(q: Query, dataType: nat, items: seq<ItemView>): Reply
    requires |q.words| == |REQUEST_WIDTHS|
  {
    Reply(q.words[ID], q.words[FROM], q.words[TO], dataType, items)
  }

  /** The client's reading of a reply: the request struct tells the number of values, `skip` bytes repeat its own
      strings and parameters, and the items follow. */
  function GetReply(b: seq<byte>, skip: nat): Option<(Reply, seq<byte>)> {
    var (vr, b1) :- GetData(b, SIZEOF_VALUEREQUEST);
    var (_, b2) :- GetData(b1, skip);
    var words := RequestWords(vr);
    var (items, b3) :- GetValues(words[NUM_VALUES], b2);
    Some((ReplyWith(words, items), b3))
  }

  /** The fields of a request struct. */
  function RequestWords(vr: seq<byte>): (words: seq<nat>)
    requires |vr| == SIZEOF_VALUEREQUEST
    ensures |words| == |REQUEST_WIDTHS|
  {
    RequestSize();
    Unpack(vr, REQUEST_WIDTHS)
  }

  /** What the server sends for `items` is read as `items`, and nothing is left over or missing. */
  lemma ReplyRoundTrip(q: Query, sent: seq<Item>, items: seq<Item>, t: seq<byte>)
    requires Fits(q.words, REQUEST_WIDTHS) && q.words[NUM_VALUES] == |items|
    requires DeliversAll(sent, items) && AllRepresentable(items)
    ensures GetReply(q.Bytes() + ((Structs(sent) + Payloads(items)) + t), |q.Tail()|)
      == Some((ReplyWith(q.words, Views(items)), t))
  {
    var values := (Structs(sent) + Payloads(items)) + t;
    DeliveredViews(sent, items);
    RequestSize();
    Regroup(Pack(q.words, REQUEST_WIDTHS), q.Tail(), values);
    Cut(Pack(q.words, REQUEST_WIDTHS), q.Tail() + values);
    UnpackPack(q.words, REQUEST_WIDTHS);
    Cut(q.Tail(), values);
    GetValuesOf(sent, t);
  }

  /** Pointer field `k` of an item that is not a NULL string. */
  predicate HasField(item: Item, k: nat) {
    k == 3 || (k == 4 && item.resource.Ptr?) || (k == 5 && item.systemId.Ptr?)
  }

  function SetField(item: Item, k: nat, a: Addr): (x: Item)
    requires HasField(item, k)
    ensures x.Words() == With(item.Words(), k, a) && SamePayload(x, item)
  {
    if k == 3 then item.(valueAddr := a)
    else if k == 4 then item.(resource := Ptr(a, item.resource.text))
    else item.(systemId := Ptr(a, item.systemId.text))
  }

  /** The request struct in a reply: the pointers keep being NULL or not, type, number and address of the values are
      filled in, and nothing else changes. */
  ghost predicate Answered(was: seq<nat>, now: seq<nat>, dataType: nat, numval: nat, values: nat) {
    && |was| == |now| == |REQUEST_WIDTHS|
    && (now[RESOURCE] == 0 <==> was[RESOURCE] == 0) && (now[SYSTEM_ID] == 0 <==> was[SYSTEM_ID] == 0)
    && now[DATA_TYPE] == dataType && now[NUM_VALUES] == numval && now[VALUES] == values
    && forall k :: 0 <= k < |was| && k !in {RESOURCE, SYSTEM_ID, DATA_TYPE, NUM_VALUES, VALUES} ==> now[k] == was[k]
  }

  lemma EncodedReply(comm: seq<byte>, q: Query, r: Query, dataType: nat, values: nat, sent: seq<Item>, items: seq<Item>,
                     b: seq<byte>)
    requires |comm| == SIZEOF_COMM && Fits(r.words, REQUEST_WIDTHS) && r.Tail() == q.Tail()
    requires Answered(q.words, r.words, dataType, |items|, values)
    requires DeliversAll(sent, items) && b == (comm + r.Bytes()) + (Structs(sent) + Payloads(items))
    ensures |b| == SIZEOF_COMM + |q.Bytes()| + |Structs(items)| + |Payloads(items)|
    ensures AllRepresentable(items) ==>
      GetReply(b[SIZEOF_COMM..], |q.Tail()|) == Some((TypedReply(q, dataType, Views(items)), []))
  {
    StructsSize(sent);
    StructsSize(items);
    if AllRepresentable(items) {
      ReplyRoundTrip(r, sent, items, []);
      ReplyBytes(comm, r, Structs(sent) + Payloads(items), b);
    }
  }

  lemma FilterParts(head: seq<byte>, num: Word64, ascending: Word32)
    ensures var b := head + (Little(num, 8) + Little(ascending, 4)); var n := |head|;
      |b| == n + FILTER && Load(b[n..n + 8]) == num && Load(b[n + 8..]) == ascending
  {
    var x, y := Little(num, 8), Little(ascending, 4);
    var b := head + (x + y);
    Widths();
    LoadLittle(num, 8);
    LoadLittle(ascending, 4);
    assert b[|head|..|head| + 8] == x && b[|head| + 8..] == y;
  }

  lemma AnsweredBy(was: seq<nat>, a: seq<nat>, b: seq<nat>, now: seq<nat>, dataType: nat, numval: nat, values: nat)
    requires |was| == |a| == |b| == |now| == |REQUEST_WIDTHS|
    requires a == was[RESOURCE := a[RESOURCE]] && (a[RESOURCE] == 0 <==> was[RESOURCE] == 0)
    requires b == a[SYSTEM_ID := b[SYSTEM_ID]] && (b[SYSTEM_ID] == 0 <==> a[SYSTEM_ID] == 0)
    requires now == b[DATA_TYPE := dataType][NUM_VALUES := numval][VALUES := values]
    ensures Answered(was, now, dataType, numval, values)
  {
  }

  lemma QueryParts(comm: seq<byte>, q: Query, rest: seq<byte>, b: seq<byte>)
    requires q.WellFormed() && |comm| == SIZEOF_COMM && b == comm + q.Bytes() + rest
    ensures |b| >= SIZEOF_COMM + SIZEOF_VALUEREQUEST
    ensures b[SIZEOF_COMM..SIZEOF_COMM + SIZEOF_VALUEREQUEST] == Pack(q.words, REQUEST_WIDTHS)
    ensures b[SIZEOF_COMM + SIZEOF_VALUEREQUEST..] == q.resource.Bytes() + (q.systemId.Bytes() + (q.filter + rest))
  {
    RequestSize();
    var p := Pack(q.words, REQUEST_WIDTHS);
    Regroup(q.systemId.Bytes(), q.filter, rest);
    Regroup(q.resource.Bytes(), q.systemId.Bytes() + q.filter, rest);
    assert b == comm + p + (q.Tail() + rest);
    Cut(comm + p, q.Tail() + rest);
    assert (comm + p)[SIZEOF_COMM..] == p;
  }

  /** The transfer buffer after `i` items have been encoded behind `head`. */
  ghost predicate Progress(items: seq<Item>, sent: seq<Item>, i: nat, head: seq<byte>, contents: seq<byte>) {
    && |sent| == |items| && i <= |items|
    && (forall k :: 0 <= k < i ==> Complete(items[k]) && Delivers(sent[k], items[k]))
    && (forall k :: i <= k < |items| ==> sent[k] == items[k])
    && contents == head + (Structs(sent) + Payloads(items[..i]))
  }

  lemma ProgressStart(items: seq<Item>, head: seq<byte>)
    ensures Progress(items, items, 0, head, head + Structs(items))
  {
    assert items[..0] == [] && Structs(items) + [] == Structs(items);
  }

  lemma ProgressStep(items: seq<Item>, was: seq<Item>, sent: seq<Item>, i: nat, head: seq<byte>, contents: seq<byte>)
    requires i < |items| == |was| == |sent| && sent == was[i := sent[i]] && Complete(items[i])
      && Delivers(sent[i], items[i])
    requires Progress(items, was, i, head, head + (Structs(was) + Payloads(items[..i])))
    requires contents == head + (Structs(sent) + (Payloads(items[..i]) + items[i].Payload()))
    ensures Progress(items, sent, i + 1, head, contents)
  {
    OneMorePayload(items, i);
  }

  lemma ReplyBytes(comm: seq<byte>, r: Query, values: seq<byte>, b: seq<byte>)
    requires |comm| == SIZEOF_COMM && |r.words| == |REQUEST_WIDTHS| && b == (comm + r.Bytes()) + values
    ensures b[SIZEOF_COMM..] == r.Bytes() + (values + [])
  {
    Regroup(comm, r.Bytes(), values);
    Cut(comm, r.Bytes() + values);
    assert values + [] == values;
  }

  lemma Enough(len: nat, numval: nat)
    requires numval > 0
    ensures len <= len * numval
  {
    MoreRows(len, numval);
  }

  /** A string in a message, if its pointer is not NULL; whoever reads it trusts the message and checks no bounds. */
  method DecodeString(word: nat, xbuf: array<byte>, start: nat) returns (s: Option<CString>, vp: nat)
    requires start <= xbuf.Length && GetString(word, xbuf[start..]).Some?
    ensures vp <= xbuf.Length && GetString(word, xbuf[start..]) == Some((s, xbuf[vp..]))
  {
    s, vp := None, start;
    if word != 0 {
      ghost var b := xbuf[start..];
      assert b == xbuf[start..xbuf.Length];
      var n := StrLen(xbuf, start, xbuf.Length);
      assert b[..n] == xbuf[start..start + n] == UpToNul(b);
      s, vp := Some(xbuf[start..start + n]), start + n + 1;
      assert b[n + 1..] == xbuf[vp..];
    }
  }

  // ----- the daemon's transfer buffer -----

  class Transfer {
    var buffer: array<byte>
    var vi: nat
    var vp: nat
    var moves: nat
    /** Where an offset into the buffer lies after so many reallocations: anywhere but at NULL. */
    const address: (nat, nat) -> Addr

    ghost predicate Valid()
      reads this
    {
      vi <= vp <= buffer.Length
    }

    ghost function Contents(): seq<byte>
      reads this, buffer
      requires Valid()
    {
      buffer[..vp]
    }

    constructor (received: seq<byte>, size: nat, address: (nat, nat) -> Addr)
      requires |received| <= size
      ensures Valid() && fresh(buffer) && buffer.Length == size && Contents() == received && this.address == address
    {
      this.address := address;
      moves := 0;
      vi, vp := |received|, |received|;
      buffer := new byte[size](i => if 0 <= i < |received| then received[i] else 0);
      new;
      assert buffer[..|received|] == received;
    }

    /** `realloc` to a larger size. */
    method Grow(reserve: nat)
      requires Valid()
      modifies this`buffer, this`moves
      ensures fresh(buffer) && buffer.Length == old(buffer.Length) + reserve
      ensures buffer[..old(buffer.Length)] == old(buffer[..])
    {
      var was := buffer;
      var now := new byte[was.Length + reserve];
      forall i | 0 <= i < was.Length {
        now[i] := was[i];
      }
      buffer, moves := now, moves + 1;
    }

    /** Writes at `vp`, growing the buffer first if it is too small; one growth of `reserve` is enough. */
    method Append(b: seq<byte>, reserve: nat)
      requires Valid() && |b| <= reserve
      modifies this`buffer, this`moves, this`vp, buffer
      ensures Valid() && (buffer == old(buffer) || fresh(buffer))
      ensures vp == old(vp) + |b| && Contents() == old(Contents()) + b
      ensures buffer.Length == old(buffer.Length) + if old(vp) + |b| > old(buffer.Length) then reserve else 0
    {
      if vp + |b| > buffer.Length {
        Grow(reserve);
      }
      assert buffer[..vp] == old(buffer[..vp]);
      forall i | 0 <= i < |b| {
        buffer[vp + i] := b[i];
      }
      assert buffer[..vp + |b|] == old(buffer[..vp]) + b;
      vp := vp + |b|;
    }

    method Overwrite(pos: nat, c: seq<byte>)
      requires Valid() && pos + |c| <= vp
      modifies buffer
      ensures Contents() == Patch(old(Contents()), pos, c)
    {
      forall i | 0 <= i < |c| {
        buffer[pos + i] := c[i];
      }
      assert buffer[..vp] == old(buffer[..pos]) + c + old(buffer[pos + |c|..vp]);
      assert old(buffer[..vp])[..pos] == old(buffer[..pos])
        && old(buffer[..vp])[pos + |c|..] == old(buffer[pos + |c|..vp]);
    }

    /** Appends the data behind field `k` of struct `i` and points the field to it. */
    method AppendField(i: nat, k: nat, b: seq<byte>, numval: nat) returns (a: Addr)
      requires Valid() && i < numval && k < 6 && vi + FieldOffset(i, k) + FIELD_SIZE <= vp
      modifies this`buffer, this`moves, this`vp, buffer
      ensures Valid() && (buffer == old(buffer) || fresh(buffer))
      ensures Contents() == Patch(old(Contents()), vi + FieldOffset(i, k), Little(a, FIELD_SIZE)) + b
      ensures vp == old(vp) + |b| && buffer.Length >= old(buffer.Length)
    {
      Enough(|b|, numval);
      ghost var was := buffer[..vp];
      var start := vp;
      Append(b, |b| * numval);
      a := address(moves, start);
      Overwrite(vi + FieldOffset(i, k), Little(a, FIELD_SIZE));
      PatchLeft(was, b, vi + FieldOffset(i, k), Little(a, FIELD_SIZE));
    }

    method EncodeField(i: nat, k: nat, b: seq<byte>, numval: nat, ghost head: seq<byte>, ghost sent: seq<Item>,
                       ghost done: seq<byte>)
      returns (ghost sent': seq<Item>)
      requires Valid() && vi == |head| && i < numval == |sent| && HasField(sent[i], k)
      requires Contents() == head + (Structs(sent) + done)
      modifies this`buffer, this`moves, this`vp, buffer
      ensures Valid() && (buffer == old(buffer) || fresh(buffer)) && buffer.Length >= old(buffer.Length)
      ensures |sent'| == |sent| && sent' == sent[i := sent'[i]] && SamePayload(sent'[i], sent[i])
      ensures Contents() == head + (Structs(sent') + (done + b))
    {
      FieldInside(sent, i, k);
      var a := AppendField(i, k, b, numval);
      FieldStep(head, sent, done, i, k, a, SetField(sent[i], k, a), b);
      sent' := sent[i := SetField(sent[i], k, a)];
    }

    /** One round of the encoder loop: the value, then both strings; a missing string is an error. */
    method EncodeItem(i: nat, item: Item, numval: nat, ghost head: seq<byte>, ghost sent: seq<Item>,
                      ghost done: seq<byte>)
      returns (rc: int, ghost sent': seq<Item>)
      requires Valid() && vi == |head| && i < numval == |sent| && sent[i] == item
      requires Contents() == head + (Structs(sent) + done)
      modifies this`buffer, this`moves, this`vp, buffer
      ensures Valid() && (buffer == old(buffer) || fresh(buffer)) && buffer.Length >= old(buffer.Length)
      ensures rc == if Complete(item) then 0 else -1
      ensures head <= Contents()
      ensures rc == 0 ==> |sent'| == |sent| && sent' == sent[i := sent'[i]] && Delivers(sent'[i], item)
      ensures rc == 0 ==> Contents() == head + (Structs(sent') + (done + item.Payload()))
    {
      ghost var mid, d := sent, done + item.value;
      mid := EncodeField(i, 3, item.value, numval, head, sent, done);
      rc, sent' := EncodeNames(i, item, numval, head, mid, d);
      assert d + (item.resource.Bytes() + item.systemId.Bytes()) == done + item.Payload();
    }

    method EncodeNames(i: nat, item: Item, numval: nat, ghost head: seq<byte>, ghost sent: seq<Item>,
                       ghost done: seq<byte>)
      returns (rc: int, ghost sent': seq<Item>)
      requires Valid() && vi == |head| && i < numval == |sent| && SamePayload(sent[i], item)
      requires Contents() == head + (Structs(sent) + done)
      modifies this`buffer, this`moves, this`vp, buffer
      ensures Valid() && (buffer == old(buffer) || fresh(buffer)) && buffer.Length >= old(buffer.Length)
      ensures rc == if Complete(item) then 0 else -1
      ensures head <= Contents()
      ensures rc == 0 ==> |sent'| == |sent| && sent' == sent[i := sent'[i]] && Delivers(sent'[i], item)
      ensures rc == 0 ==>
        Contents() == head + (Structs(sent') + (done + (item.resource.Bytes() + item.systemId.Bytes())))
    {
      rc, sent' := -1, sent;
      if item.resource.Ptr? {
        ghost var d := done + item.resource.Bytes();
        sent' := EncodeField(i, 4, item.resource.Bytes(), numval, head, sent, done);
        if item.systemId.Ptr? {
          sent' := EncodeField(i, 5, item.systemId.Bytes(), numval, head, sent', d);
          rc := 0;
          Regroup(done, item.resource.Bytes(), item.systemId.Bytes());
        }
      }
    }

    /** The encoder: item structs first, then the data of each item in turn. */
    method Encode(items: seq<Item>) returns (rc: int, ghost sent: seq<Item>)
      requires vi <= buffer.Length
      modifies this`buffer, this`moves, this`vp, buffer
      ensures Valid() && (buffer == old(buffer) || fresh(buffer)) && buffer.Length >= old(buffer.Length)
      ensures rc == if AllComplete(items) then 0 else -1
      ensures old(buffer[..vi]) <= Contents()
      ensures rc == 0 ==>
        DeliversAll(sent, items) && Contents() == old(buffer[..vi]) + (Structs(sent) + Payloads(items))
    {
      ghost var head := buffer[..vi];
      vp := vi;
      StructsSize(items);
      Append(Structs(items), SIZEOF_VALUEITEM * |items|);
      ProgressStart(items, head);
      rc, sent := EncodeItems(items, head);
      assert items[..|items|] == items;
    }

    method EncodeItems(items: seq<Item>, ghost head: seq<byte>) returns (rc: int, ghost sent: seq<Item>)
      requires Valid() && vi == |head| && Progress(items, items, 0, head, Contents())
      modifies this`buffer, this`moves, this`vp, buffer
      ensures Valid() && (buffer == old(buffer) || fresh(buffer)) && buffer.Length >= old(buffer.Length)
      ensures head <= Contents() && rc == if AllComplete(items) then 0 else -1
      ensures rc == 0 ==> Progress(items, sent, |items|, head, Contents())
    {
      rc, sent := 0, items;
      var i := 0;
      while i < |items| && rc == 0
        invariant Valid() && (buffer == old(buffer) || fresh(buffer)) && buffer.Length >= old(buffer.Length)
        invariant 0 <= i <= |items| && vi == |head| && head <= Contents()
        invariant rc == 0 ==> Progress(items, sent, i, head, Contents())
        invariant rc != 0 ==> rc == -1 && !AllComplete(items)
      {
        ghost var was := sent;
        rc, sent := EncodeItem(i, items[i], |items|, head, was, Payloads(items[..i]));
        if rc == 0 {
          ProgressStep(items, was, sent, i, head, Contents());
        }
        i := i + 1;
      }
    }

    // ----- answering a query -----

    /** Reads the request: its struct, its strings, and where it ends, which is where the items go. */
    method Locate(filtered: bool, ghost comm: seq<byte>, ghost q: Query)
      returns (w: seq<nat>, resource: Option<CString>, systemId: Option<CString>)
      requires Valid() && q.WellFormed() && |q.filter| == (if filtered then FILTER else 0)
      requires |comm| == SIZEOF_COMM && Contents() == comm + q.Bytes()
      modifies this`vi
      ensures vi == vp && w == q.words && resource == q.resource.Text() && systemId == q.systemId.Text()
    {
      RequestSize();
      ghost var rest := buffer[vp..];
      var pos := SIZEOF_COMM + SIZEOF_VALUEREQUEST;
      QueryParts(comm, q, rest, buffer[..]);
      assert buffer[SIZEOF_COMM..pos] == buffer[..][SIZEOF_COMM..pos] && buffer[pos..] == buffer[..][pos..];
      UnpackPack(q.words, REQUEST_WIDTHS);
      w := Unpack(buffer[SIZEOF_COMM..pos], REQUEST_WIDTHS);
      var n, m;
      GetStringOf(q.resource, q.systemId.Bytes() + (q.filter + rest));
      resource, n := DecodeString(w[RESOURCE], buffer, pos);
      GetStringOf(q.systemId, q.filter + rest);
      systemId, m := DecodeString(w[SYSTEM_ID], buffer, n);
      assert |buffer[m..]| == |q.filter| + |rest|;
      vi := m + if filtered then FILTER else 0;
    }

    /** The number of values wanted and the direction, in front of the place for the items. */
    method ReadFilter(ghost num: Word64, ghost ascending: Word32, ghost head: seq<byte>) returns (n: nat, asc: nat)
      requires Valid() && vi == vp && Contents() == head + (Little(num, 8) + Little(ascending, 4))
      ensures n == num && asc == ascending
    {
      FilterParts(head, num, ascending);
      var b := buffer[..vi];
      n, asc := Load(b[vi - FILTER..vi - 4]), Load(b[vi - 4..]);
    }

    /** Stores into a field of a struct in the buffer. */
    method Store(pos: nat, widths: seq<nat>, k: nat, v: nat, ghost before: seq<byte>, ghost words: seq<nat>,
                 ghost after: seq<byte>)
      requires Valid() && pos == |before| && k < |widths| == |words|
      requires Contents() == before + (Pack(words, widths) + after)
      modifies buffer
      ensures Contents() == before + (Pack(With(words, k, v), widths) + after)
    {
      PatchStruct(before, words, widths, after, k, v);
      Overwrite(pos + Offset(widths, k), Little(v, widths[k]));
    }

    /** Stores into a field of the request struct. */
    method SetWord(k: nat, v: nat, ghost comm: seq<byte>, ghost q: Query) returns (ghost q': Query)
      requires Valid() && Fits(q.words, REQUEST_WIDTHS) && k < 9 && v < Pow256(REQUEST_WIDTHS[k])
      requires |comm| == SIZEOF_COMM && Contents() == comm + q.Bytes()
      modifies buffer
      ensures q' == q.(words := With(q.words, k, v)) && Fits(q'.words, REQUEST_WIDTHS)
        && Contents() == comm + q'.Bytes()
    {
      q' := q.(words := With(q.words, k, v));
      Store(SIZEOF_COMM, REQUEST_WIDTHS, k, v, comm, q.words, q.Tail());
    }

    /** Adjusts the pointers of the request and records type and number of the values found for it. */
    method FixRequest(w: seq<nat>, resourceLen: nat, dataType: Word32, numval: nat, values: Word64,
                      ghost comm: seq<byte>, ghost q: Query)
      returns (ghost r: Query)
      requires Valid() && q.WellFormed() && w == q.words && numval <= INT_MAX
      requires |comm| == SIZEOF_COMM && Contents() == comm + q.Bytes()
      modifies buffer
      ensures Fits(r.words, REQUEST_WIDTHS) && Contents() == comm + r.Bytes() && r.Tail() == q.Tail()
      ensures Answered(q.words, r.words, dataType, numval, values)
    {
      var strings := SIZEOF_COMM + SIZEOF_VALUEREQUEST;
      r := FixPointer(w, RESOURCE, strings, comm, q);
      ghost var a := r.words;
      r := FixPointer(w, SYSTEM_ID, strings + resourceLen, comm, r);
      ghost var b := r.words;
      r := SetFound(dataType, numval, values, comm, r);
      AnsweredBy(q.words, a, b, r.words, dataType, numval, values);
    }

    /** A pointer that is not NULL will point into the buffer. */
    method FixPointer(w: seq<nat>, k: nat, offset: nat, ghost comm: seq<byte>, ghost q: Query) returns (ghost r: Query)
      requires Valid() && Fits(q.words, REQUEST_WIDTHS) && k in {RESOURCE, SYSTEM_ID} && |w| == 9 && w[k] == q.words[k]
      requires |comm| == SIZEOF_COMM && Contents() == comm + q.Bytes()
      modifies buffer
      ensures Fits(r.words, REQUEST_WIDTHS) && Contents() == comm + r.Bytes() && r.Tail() == q.Tail()
      ensures r.words == q.words[k := r.words[k]] && (r.words[k] == 0 <==> q.words[k] == 0)
    {
      r := q;
      if w[k] != 0 {
        Widths();
        r := SetWord(k, address(moves, offset), comm, r);
      }
    }

    method SetFound(dataType: Word32, numval: nat, values: Word64, ghost comm: seq<byte>, ghost q: Query)
      returns (ghost r: Query)
      requires Valid() && Fits(q.words, REQUEST_WIDTHS) && numval <= INT_MAX
      requires |comm| == SIZEOF_COMM && Contents() == comm + q.Bytes()
      modifies buffer
      ensures Fits(r.words, REQUEST_WIDTHS) && Contents() == comm + r.Bytes() && r.Tail() == q.Tail()
      ensures r.words == q.words[DATA_TYPE := dataType][NUM_VALUES := numval][VALUES := values]
    {
      Widths();
      r := SetWord(DATA_TYPE, dataType, comm, q);
      r := SetWord(NUM_VALUES, numval, comm, r);
      r := SetWord(VALUES, values, comm, r);
    }

    method SetHeader(k: nat, v: nat, ghost h: Header) returns (ghost h': Header)
      requires Valid() && SIZEOF_COMM <= vp && Contents()[..SIZEOF_COMM] == h.Bytes()
      requires (k == RESULT && v < 0x1_0000) || (k == DATALEN && v < TWO_32)
      modifies buffer
      ensures h' == if k == RESULT then h.(result := v) else h.(datalen := v)
      ensures Contents()[..SIZEOF_COMM] == h'.Bytes() && Contents()[SIZEOF_COMM..] == old(Contents())[SIZEOF_COMM..]
    {
      CommSize();
      h' := if k == RESULT then h.(result := v) else h.(datalen := v);
      ghost var tail := Contents()[SIZEOF_COMM..];
      assert Contents() == [] + (h.Bytes() + tail);
      assert h'.Words() == With(h.Words(), k, v);
      Store(0, COMM_WIDTHS, k, v, [], h.Words(), tail);
      assert Contents() == h'.Bytes() + tail;
      Cut(h'.Bytes(), tail);
    }

    /** Answers a query that has been located, whose result is `result` with `items`: unless it failed or a string is
        missing, the client reads back exactly the items, their type, and the rest of its own request. */
    method Respond(w: seq<nat>, resourceLen: nat, result: int, items: seq<Item>, dataType: Word32, values: Word64,
                   ghost h: Header, ghost q: Query)
      returns (rc: int, datalen: nat, ghost h': Header)
      requires Valid() && vi == vp && q.WellFormed() && w == q.words && |items| <= INT_MAX
      requires Contents() == h.Bytes() + q.Bytes()
      modifies this, buffer
      ensures Valid() && (buffer == old(buffer) || fresh(buffer)) && SIZEOF_COMM <= vp
      ensures rc == if result != -1 && !AllComplete(items) then -1 else result
      ensures datalen == (if result == -1 then 0 else vp - SIZEOF_COMM) && (result == -1 ==> vp == old(vp))
      ensures h' == Header(h.cmd, Stored(rc), if result == -1 then h.datalen else datalen % TWO_32)
      ensures Contents()[..SIZEOF_COMM] == h'.Bytes()
      ensures result != -1 && AllComplete(items) ==>
        vp == SIZEOF_COMM + |q.Bytes()| + |Structs(items)| + |Payloads(items)|
      ensures result != -1 && AllComplete(items) && AllRepresentable(items) ==>
        GetReply(Contents()[SIZEOF_COMM..], |q.Tail()|) == Some((TypedReply(q, dataType, Views(items)), []))
    {
      CommSize();
      rc, datalen, h' := result, 0, h;
      if result != -1 {
        var ok := EncodeReply(w, resourceLen, items, dataType, values, h.Bytes(), q);
        datalen := vp - SIZEOF_COMM;
        if ok == -1 {
          rc := -1;
        }
        h' := SetHeader(DATALEN, datalen % TWO_32, h);
      } else {
        Cut(h.Bytes(), q.Bytes());
      }
      h' := SetHeader(RESULT, Stored(rc), h');
    }

    /** The reply to a successful query, but for its header. */
    method EncodeReply(w: seq<nat>, resourceLen: nat, items: seq<Item>, dataType: Word32, values: Word64,
                       ghost comm: seq<byte>, ghost q: Query)
      returns (rc: int)
      requires Valid() && vi == vp && q.WellFormed() && w == q.words && |items| <= INT_MAX
      requires |comm| == SIZEOF_COMM && Contents() == comm + q.Bytes()
      modifies this, buffer
      ensures Valid() && (buffer == old(buffer) || fresh(buffer)) && SIZEOF_COMM <= vp
      ensures rc == if AllComplete(items) then 0 else -1
      ensures Contents()[..SIZEOF_COMM] == comm
      ensures rc == 0 ==> vp == SIZEOF_COMM + |q.Bytes()| + |Structs(items)| + |Payloads(items)|
      ensures rc == 0 && AllRepresentable(items) ==>
        GetReply(Contents()[SIZEOF_COMM..], |q.Tail()|) == Some((TypedReply(q, dataType, Views(items)), []))
    {
      ghost var r := FixRequest(w, resourceLen, dataType, |items|, values, comm, q);
      assert buffer[..vi] == comm + r.Bytes();
      ghost var sent;
      rc, sent := Encode(items);
      Cut(comm, r.Bytes());
      assert Contents()[..SIZEOF_COMM] == (comm + r.Bytes())[..SIZEOF_COMM];
      if rc == 0 {
        EncodedReply(comm, q, r, dataType, values, sent, items, Contents());
      }
    }
  }
}
