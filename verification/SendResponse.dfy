/** Sending a response with gathered writes that may each take only part of it (comms/mcserv_unix.c). */
module SendResponse {
  import opened CBytes

  /** An I/O vector element: what is left to write of one block. */
  datatype Iovec = Iovec(data: seq<byte>, base: nat, len: nat) {
    predicate Valid() { base + len <= |data| }
    function Bytes(): seq<byte>
      requires Valid()
    {
      data[base..base + len]
    }
    function Advanced(n: nat): Iovec
      requires n <= len
    {
      Iovec(data, base + n, len - n)
    }
  }

  ghost predicate AllValid(iov: seq<Iovec>) {
    forall k :: 0 <= k < |iov| ==> iov[k].Valid()
  }

  /** The bytes of the blocks from `start` on. */
  function Gathered(iov: seq<Iovec>, start: nat): seq<byte>
    requires AllValid(iov) && start <= |iov|
    decreases |iov| - start
  {
    if start == |iov| then [] else iov[start].Bytes() + Gathered(iov, start + 1)
  }

  lemma {:induction false} GatheredFrom(a: seq<Iovec>, b: seq<Iovec>, start: nat)
    requires AllValid(a) && AllValid(b) && |a| == |b| && start <= |a|
    requires forall k :: start <= k < |a| ==> a[k] == b[k]
    ensures Gathered(a, start) == Gathered(b, start)
    decreases |a| - start
  {
    if start < |a| {
      GatheredFrom(a, b, start + 1);
    }
  }

  const SIZE_T: nat := 0x1_0000_0000_0000_0000
  const SIZEOF_SIZE_T: nat := 8
  const SIZEOF_HDR: nat := 8

  /** What the client must receive. */
  function Message(hdr: seq<byte>, data: seq<byte>): seq<byte> {
    hdr + Little(|data|, SIZEOF_SIZE_T) + data
  }

  /** The header in eight bytes, the length of the data in eight, and the data; the length of any message is a
      `size_t`. */
  lemma MessageLayout(hdr: seq<byte>, data: seq<byte>)
    requires |hdr| == 8 && |data| < 0x1_0000_0000_0000_0000 - 17
    ensures var m := Message(hdr, data);
      && |m| == 16 + |data| < SIZE_T - 1
      && m[..8] == hdr && Load(m[8..16]) == |data| && m[16..] == data
  {
    var m := Message(hdr, data);
    Widths();
    LoadLittle(|data|, 8);
    assert m[8..16] == Little(|data|, 8);
  }

  /** `writev` as the caller sees it: the kernel takes some of the bytes, or none and reports an error. */
  function Written(taken: int, pending: nat): (n: int)
    ensures n == -1 <==> taken < 0
    ensures taken >= 0 ==> n <= taken && n <= pending && (n == taken || n == pending)
  {
    if taken < 0 then -1 else if taken < pending then taken else pending
  }

  /** How much of `left` bytes the calls from the k-th on take before one of them takes nothing. */
  function TotalTaken(taken: nat -> int, k: nat, left: nat): (n: nat)
    ensures n <= left
    ensures (forall i :: k <= i ==> taken(i) > 0) ==> n == left
    decreases left
  {
    var n := Written(taken(k), left);
    if n <= 0 then 0 else n + TotalTaken(taken, k + 1, left - n)
  }

  /** Skips what the last write has taken. */
  method Advance(iov: array<Iovec>, startblock: nat, writelen: nat) returns (startblock': nat)
    requires startblock <= iov.Length && AllValid(iov[..]) && writelen <= |Gathered(iov[..], startblock)|
    modifies iov
    ensures startblock <= startblock' <= iov.Length && AllValid(iov[..])
    ensures Gathered(iov[..], startblock') == old(Gathered(iov[..], startblock))[writelen..]
  {
    startblock' := startblock;
    var left: int := writelen;
    ghost var was := iov[..];
    while startblock' < iov.Length
      invariant startblock <= startblock' <= iov.Length && iov[..] == was
      invariant 0 <= left <= |Gathered(was, startblock')|
      invariant Gathered(was, startblock')[left..] == Gathered(was, startblock)[writelen..]
    {
      ghost var b, rest := was[startblock'].Bytes(), Gathered(was, startblock' + 1);
      if iov[startblock'].len - left < 0 {
        assert (b + rest)[left..] == rest[left - |b|..];
        left := left - iov[startblock'].len;
        startblock' := startblock' + 1;
      } else {
        iov[startblock'] := iov[startblock'].Advanced(left);
        GatheredFrom(was, iov[..], startblock' + 1);
        assert iov[startblock'].Bytes() == b[left..];
        assert (b + rest)[left..] == b[left..] + rest;
        break;
      }
    }
  }

  lemma TakeSome(all: seq<byte>, emitted: seq<byte>, pending: seq<byte>, n: nat)
    requires all == emitted + pending && n <= |pending|
    ensures all == (emitted + pending[..n]) + pending[n..]
  {
    assert pending == pending[..n] + pending[n..];
  }

  /** The write loop: `sentlen` counts what was written, or one less if the last write failed. */
  method WriteAll(iov: array<Iovec>, total: nat, taken: nat -> int, ghost all: seq<byte>)
    returns (sentlen: int, emitted: seq<byte>)
    requires AllValid(iov[..]) && Gathered(iov[..], 0) == all && |all| == total > 0
    modifies iov
    ensures emitted == all[..TotalTaken(taken, 0, total)]
    ensures sentlen == |emitted| || (sentlen == |emitted| - 1 && |emitted| < total)
  {
    emitted := [];
    var startblock, writelen, calls := 0, 0, 0;
    sentlen := 0;
    while true
      invariant 0 <= writelen <= sentlen == |emitted| < total && startblock <= iov.Length && calls >= 0
      invariant AllValid(iov[..]) && writelen <= |Gathered(iov[..], startblock)|
      invariant all == emitted + Gathered(iov[..], startblock)[writelen..]
      invariant TotalTaken(taken, 0, total) == sentlen + TotalTaken(taken, calls, total - sentlen)
      decreases total - sentlen
    {
      startblock := Advance(iov, startblock, writelen);
      var pending := Gathered(iov[..], startblock);
      assert all == emitted + pending;
      writelen := Written(taken(calls), |pending|);
      if writelen > 0 {
        TakeSome(all, emitted, pending, writelen);
        emitted := emitted + pending[..writelen];
      }
      calls := calls + 1;
      sentlen := sentlen + writelen;
      if !(writelen > 0 && sentlen < total) {
        break;
      }
    }
    assert emitted == all[..|emitted|];
  }

  /** `mcs_sendresponse` when the k-th call of `writev` takes `taken(k)` bytes, or as many as are left. */
  method McsSendResponse(hdr: seq<byte>, connected: bool, respdata: Option<seq<byte>>, taken: nat -> int)
    returns (rc: int, emitted: seq<byte>)
    requires |hdr| == 8 && (respdata.Some? ==> |Message(hdr, respdata.value)| < SIZE_T - 1)
    ensures connected && respdata.Some? ==>
      var all := Message(hdr, respdata.value);
      && emitted == all[..TotalTaken(taken, 0, |all|)]
      && rc == if emitted == all then 0 else -1
    ensures !connected || respdata.None? ==> rc == -1 && emitted == []
  {
    rc, emitted := -1, [];
    if !connected || respdata.None? {
      return;
    }
    var respdatalen := Little(|respdata.value|, SIZEOF_SIZE_T);
    var iov := new Iovec[] [Iovec(hdr, 0, |hdr|), Iovec(respdatalen, 0, SIZEOF_SIZE_T),
                            Iovec(respdata.value, 0, |respdata.value|)];
    GatheredAll(iov[..], hdr, respdata.value);
    var total := |respdata.value| + SIZEOF_SIZE_T + SIZEOF_HDR;
    var sentlen;
    sentlen, emitted := WriteAll(iov, total, taken, Message(hdr, respdata.value));
    if sentlen % SIZE_T == total {
      rc := 0;
    }
  }

  lemma GatheredAll(iov: seq<Iovec>, hdr: seq<byte>, data: seq<byte>)
    requires AllValid(iov) && |iov| == 3
    requires iov[0] == Iovec(hdr, 0, |hdr|) && iov[2] == Iovec(data, 0, |data|)
    requires iov[1] == Iovec(Little(|data|, SIZEOF_SIZE_T), 0, SIZEOF_SIZE_T)
    ensures Gathered(iov, 0) == Message(hdr, data)
  {
    assert iov[0].Bytes() == hdr && iov[2].Bytes() == data;
    assert iov[1].Bytes() == Little(|data|, SIZEOF_SIZE_T);
    assert Gathered(iov, 3) == [];
    assert Gathered(iov, 2) == data;
    assert Gathered(iov, 1) == Little(|data|, SIZEOF_SIZE_T) + data;
  }
}
