/** Byte-level pieces of the wire formats: C structs on a 64-bit machine, optional strings, raw data (marshal.c). */
module Wire {
  import opened CBytes

  type Addr = x: Word64 | x > 0 witness 1

  /** A `char *` as the sender sees it. */
  datatype CStr = Null | Ptr(addr: Addr, text: CString) {
    function Word(): Word64 { if Null? then 0 else addr }
    function Text(): Option<CString> { if Null? then None else Some(text) }
    function Bytes(): seq<byte> { if Null? then [] else text + [0] }
  }

  // ----- structs as sequences of words -----

  function Size(widths: seq<nat>): nat {
    if widths == [] then 0 else widths[0] + Size(widths[1..])
  }

  /** The words fit the field widths. */
  ghost predicate Fits(words: seq<nat>, widths: seq<nat>) {
    |words| == |widths| && forall i :: 0 <= i < |words| ==> words[i] < Pow256(widths[i])
  }

  function Pack(words: seq<nat>, widths: seq<nat>): (b: seq<byte>)
    requires |words| == |widths|
    ensures |b| == Size(widths)
  {
    if words == [] then [] else Little(words[0], widths[0]) + Pack(words[1..], widths[1..])
  }

  function Unpack(b: seq<byte>, widths: seq<nat>): (words: seq<nat>)
    requires |b| == Size(widths)
    ensures |words| == |widths|
  {
    if widths == [] then [] else [Load(b[..widths[0]])] + Unpack(b[widths[0]..], widths[1..])
  }

  lemma {:induction false} UnpackPack(words: seq<nat>, widths: seq<nat>)
    requires Fits(words, widths)
    ensures Unpack(Pack(words, widths), widths) == words
  {
    if words != [] {
      var h, t := Little(words[0], widths[0]), Pack(words[1..], widths[1..]);
      assert (h + t)[..widths[0]] == h && (h + t)[widths[0]..] == t;
      LoadLittle(words[0], widths[0]);
      UnpackPack(words[1..], widths[1..]);
    }
  }

  // ----- reading: each reader returns what it read and the bytes that follow -----

  /** `unmarshal_data`; `None` is the error return. */
  function GetData(b: seq<byte>, n: nat): (r: Option<(seq<byte>, seq<byte>)>)
    ensures r.Some? ==> r.value.0 + r.value.1 == b
  {
    if n > |b| then None else Some((b[..n], b[n..]))
  }

  /** `unmarshal_string` without `required`: a string is present when its pointer is not NULL. */
  function GetString(word: nat, b: seq<byte>): (r: Option<(Option<CString>, seq<byte>)>)
    ensures r.Some? ==> |r.value.1| <= |b|
  {
    if word == 0 then Some((None, b))
    else
      var s := UpToNul(b);
      if |s| == |b| then None else Some((Some(s), b[|s| + 1..]))
  }

  function GetWords(b: seq<byte>, widths: seq<nat>): (r: Option<(seq<nat>, seq<byte>)>)
    ensures r.Some? ==> |r.value.0| == |widths| && |r.value.1| <= |b|
  {
    if Size(widths) > |b| then None else Some((Unpack(b[..Size(widths)], widths), b[Size(widths)..]))
  }

  /** Consecutive optional strings, present where the pointer word is not zero. */
  function GetStrings(words: seq<nat>, b: seq<byte>): (r: Option<(seq<Option<CString>>, seq<byte>)>)
    ensures r.Some? ==> |r.value.0| == |words| && |r.value.1| <= |b|
    decreases |words|
  {
    if words == [] then Some(([], b))
    else
      var (s, b1) :- GetString(words[0], b);
      var (rest, b2) :- GetStrings(words[1..], b1);
      Some(([s] + rest, b2))
  }

  lemma Cut(h: seq<byte>, t: seq<byte>)
    ensures (h + t)[..|h|] == h && (h + t)[|h|..] == t
  {
  }

  lemma Regroup(a: seq<byte>, b: seq<byte>, c: seq<byte>)
    ensures (a + b) + c == a + (b + c)
  {
  }

  lemma GetStringOf(s: CStr, t: seq<byte>)
    ensures GetString(s.Word(), s.Bytes() + t) == Some((s.Text(), t))
  {
    if s.Ptr? {
      UpToNulOf(s.text, t);
      Cut(s.Bytes(), t);
    } else {
      assert s.Bytes() + t == t;
    }
  }

  lemma GetWordsOf(words: seq<nat>, widths: seq<nat>, t: seq<byte>)
    requires Fits(words, widths)
    ensures GetWords(Pack(words, widths) + t, widths) == Some((words, t))
  {
    Cut(Pack(words, widths), t);
    UnpackPack(words, widths);
  }

  /** What a reader returns for the whole list once the values in `done` have been read. */
  function Prepend<T>(done: seq<T>, r: Option<(seq<T>, seq<byte>)>): Option<(seq<T>, seq<byte>)> {
    if r.None? then None else Some((done + r.value.0, r.value.1))
  }

  // ----- arrays of structs -----

  function Rows(rows: seq<seq<nat>>, widths: seq<nat>): seq<byte>
    requires forall k :: 0 <= k < |rows| ==> |rows[k]| == |widths|
  {
    if rows == [] then [] else Pack(rows[0], widths) + Rows(rows[1..], widths)
  }

  /** The words of `n` consecutive structs. */
  function GetRows(b: seq<byte>, widths: seq<nat>, n: nat): (r: Option<(seq<seq<nat>>, seq<byte>)>)
    ensures r.Some? ==>
      |r.value.0| == n && (forall k :: 0 <= k < n ==> |r.value.0[k]| == |widths|) && |r.value.1| <= |b|
    decreases n
  {
    if n == 0 then Some(([], b))
    else
      var (w, b1) :- GetWords(b, widths);
      var (ws, b2) :- GetRows(b1, widths, n - 1);
      Some(([w] + ws, b2))
  }

  ghost predicate AllFit(rows: seq<seq<nat>>, widths: seq<nat>) {
    forall k :: 0 <= k < |rows| ==> |rows[k]| == |widths| && Fits(rows[k], widths)
  }

  lemma {:induction false} GetRowsOf(rows: seq<seq<nat>>, widths: seq<nat>, t: seq<byte>)
    requires AllFit(rows, widths)
    ensures GetRows(Rows(rows, widths) + t, widths, |rows|) == Some((rows, t))
  {
    if rows == [] {
      assert Rows(rows, widths) + t == t;
    } else {
      var b, b1 := Rows(rows, widths) + t, Rows(rows[1..], widths) + t;
      Regroup(Pack(rows[0], widths), Rows(rows[1..], widths), t);
      GetWordsOf(rows[0], widths, b1);
      GetRowsOf(rows[1..], widths, t);
      assert GetRows(b, widths, |rows|) == Some(([rows[0]] + rows[1..], t)) && [rows[0]] + rows[1..] == rows;
    }
  }

  /** An array of structs read as one piece. */
  function UnpackAll(b: seq<byte>, widths: seq<nat>, n: nat): (ws: seq<seq<nat>>)
    requires |b| == Size(widths) * n
    ensures |ws| == n && forall k :: 0 <= k < n ==> |ws[k]| == |widths|
    decreases n
  {
    if n == 0 then []
    else
      var size := Size(widths);
      MoreRows(size, n);
      [Unpack(b[..size], widths)] + UnpackAll(b[size..], widths, n - 1)
  }

  lemma MoreRows(size: nat, n: nat)
    requires n > 0
    ensures size * n == size + size * (n - 1) && 0 <= size * (n - 1)
  {
  }

  /** Reading the structs one by one is the same as reading them in one piece. */
  lemma {:induction false} RowsInOnePiece(b: seq<byte>, widths: seq<nat>, n: nat)
    ensures GetRows(b, widths, n) == match GetData(b, Size(widths) * n)
      case None => None
      case Some(d) => Some((UnpackAll(d.0, widths, n), d.1))
    decreases n
  {
    var size := Size(widths);
    if n == 0 {
      assert b[0..] == b && b[..0] == [];
    } else {
      MoreRows(size, n);
      if size <= |b| {
        var b1 := b[size..];
        RowsInOnePiece(b1, widths, n - 1);
        if size * n <= |b| {
          var all := b[..size * n];
          assert all[..size] == b[..size] && all[size..] == b1[..size * (n - 1)];
          assert b1[size * (n - 1)..] == b[size * n..];
        }
      }
    }
  }

  // ----- strings -----

  function PtrWords(strs: seq<CStr>): seq<nat> {
    if strs == [] then [] else [strs[0].Word()] + PtrWords(strs[1..])
  }

  function Texts(strs: seq<CStr>): seq<Option<CString>> {
    if strs == [] then [] else [strs[0].Text()] + Texts(strs[1..])
  }

  function AllBytes(strs: seq<CStr>): seq<byte> {
    if strs == [] then [] else strs[0].Bytes() + AllBytes(strs[1..])
  }

  lemma OneMore(a: CStr, rest: seq<CStr>)
    ensures PtrWords([a] + rest) == [a.Word()] + PtrWords(rest) && Texts([a] + rest) == [a.Text()] + Texts(rest)
  {
    assert ([a] + rest)[1..] == rest;
  }

  lemma TwoStrings(a: CStr, b: CStr)
    ensures PtrWords([a, b]) == [a.Word(), b.Word()] && Texts([a, b]) == [a.Text(), b.Text()]
  {
    OneMore(a, [b]);
    OneMore(b, []);
    assert [a] + [b] == [a, b] && [b] + [] == [b];
  }

  lemma ThreeStrings(a: CStr, b: CStr, c: CStr)
    ensures PtrWords([a, b, c]) == [a.Word(), b.Word(), c.Word()] && Texts([a, b, c]) == [a.Text(), b.Text(), c.Text()]
  {
    OneMore(a, [b, c]);
    TwoStrings(b, c);
    assert [a] + [b, c] == [a, b, c];
  }

  lemma {:induction false} GetStringsOf(strs: seq<CStr>, t: seq<byte>)
    ensures GetStrings(PtrWords(strs), AllBytes(strs) + t) == Some((Texts(strs), t))
  {
    if strs == [] {
      assert AllBytes(strs) + t == t;
    } else {
      Regroup(strs[0].Bytes(), AllBytes(strs[1..]), t);
      GetStringOf(strs[0], AllBytes(strs[1..]) + t);
      GetStringsOf(strs[1..], t);
      StringsStep(strs[0].Word(), PtrWords(strs[1..]), AllBytes(strs) + t, strs[0].Text(), AllBytes(strs[1..]) + t,
                  Texts(strs[1..]), t);
    }
  }

  lemma StringsStep(w: nat, ws: seq<nat>, b: seq<byte>, s: Option<CString>, b1: seq<byte>, rest: seq<Option<CString>>,
                    b2: seq<byte>)
    requires GetString(w, b) == Some((s, b1)) && GetStrings(ws, b1) == Some((rest, b2))
    ensures GetStrings([w] + ws, b) == Some(([s] + rest, b2))
  {
    assert ([w] + ws)[1..] == ws;
  }

  // ----- writing -----

  /** `now` is `was` with `b` written at `off`. */
  ghost predicate Wrote(was: seq<byte>, now: seq<byte>, off: nat, b: seq<byte>) {
    off + |b| <= |was| && now == was[..off] + b + was[off + |b|..]
  }

  lemma WroteMore(s: seq<byte>, t: seq<byte>, u: seq<byte>, off: nat, a: seq<byte>, b: seq<byte>)
    requires Wrote(s, t, off, a) && Wrote(t, u, off + |a|, b)
    ensures Wrote(s, u, off, a + b)
  {
    assert t[..off + |a|] == s[..off] + a;
    assert t[off + |a| + |b|..] == s[off + |a| + |b|..];
  }

  /** `marshal_data`; `None` is a NULL pointer. */
  method MarshalData(data: Option<seq<byte>>, mbuf: array<byte>, offset: nat, mbuflen: nat)
    returns (rc: int, offset': nat)
    requires mbuflen <= mbuf.Length
    modifies mbuf
    ensures rc == if data.Some? && offset + |data.value| <= mbuflen then 0 else -1
    ensures rc == 0 ==> offset' == offset + |data.value| && Wrote(old(mbuf[..]), mbuf[..], offset, data.value)
    ensures rc != 0 ==> offset' == offset && mbuf[..] == old(mbuf[..])
  {
    rc, offset' := -1, offset;
    if data.Some? {
      if mbuflen < offset + |data.value| {
        return;
      }
      forall i | 0 <= i < |data.value| {
        mbuf[offset + i] := data.value[i];
      }
      rc, offset' := 0, offset + |data.value|;
      assert mbuf[..] == old(mbuf[..offset]) + data.value + old(mbuf[offset'..]);
    }
  }

  /** `marshal_string`; an absent string writes nothing unless it is required. */
  method MarshalString(str: CStr, mbuf: array<byte>, offset: nat, mbuflen: nat, required: bool)
    returns (rc: int, offset': nat)
    requires offset <= mbuflen <= mbuf.Length
    modifies mbuf
    ensures var b := if str.Null? && required then [0] else str.Bytes();
      && rc == (if offset + |b| <= mbuflen then 0 else -1)
      && (rc == 0 ==> offset' == offset + |b| && Wrote(old(mbuf[..]), mbuf[..], offset, b))
      && (rc != 0 ==> offset' == offset && mbuf[..] == old(mbuf[..]))
  {
    rc, offset' := 0, offset;
    var s := str;
    if required && str.Null? {
      s := Ptr(1, []);
    }
    if s.Ptr? {
      rc, offset' := MarshalData(Some(s.text + [0]), mbuf, offset, mbuflen);
    } else {
      assert mbuf[..] == mbuf[..offset] + [] + mbuf[offset..];
    }
  }

  /** `unmarshal_data`: the data, and the offset after it. */
  method UnmarshalData(n: nat, mbuf: array<byte>, offset: nat, mbuflen: nat)
    returns (rc: int, data: seq<byte>, offset': nat)
    requires offset <= mbuflen <= mbuf.Length
    ensures rc == 0 ==>
      offset <= offset' <= mbuflen && GetData(mbuf[offset..mbuflen], n) == Some((data, mbuf[offset'..mbuflen]))
    ensures rc != 0 ==> rc == -1 && GetData(mbuf[offset..mbuflen], n) == None
  {
    offset' := offset + n;
    if offset' > mbuflen {
      return -1, [], offset';
    }
    rc, data := 0, mbuf[offset..offset'];
    assert mbuf[offset..mbuflen][..n] == data && mbuf[offset..mbuflen][n..] == mbuf[offset'..mbuflen];
  }

  /** `strlen`, bounded by the end of the message. */
  method StrLen(mbuf: array<byte>, offset: nat, mbuflen: nat) returns (n: nat)
    requires offset <= mbuflen <= mbuf.Length
    ensures n == |UpToNul(mbuf[offset..mbuflen])|
  {
    n := 0;
    ghost var rest := mbuf[offset..mbuflen];
    while offset + n < mbuflen && mbuf[offset + n] != 0
      invariant offset + n <= mbuflen
      invariant |UpToNul(rest)| == n + |UpToNul(rest[n..])|
    {
      assert rest[n..][1..] == rest[n + 1..];
      n := n + 1;
    }
  }

  method UnmarshalString(word: nat, mbuf: array<byte>, offset: nat, mbuflen: nat)
    returns (rc: int, str: Option<CString>, offset': nat)
    requires offset <= mbuflen <= mbuf.Length
    ensures rc == 0 ==>
      offset <= offset' <= mbuflen && GetString(word, mbuf[offset..mbuflen]) == Some((str, mbuf[offset'..mbuflen]))
    ensures rc != 0 ==> rc == -1 && GetString(word, mbuf[offset..mbuflen]) == None
  {
    rc, str, offset' := 0, None, offset;
    if word != 0 {
      var n := StrLen(mbuf, offset, mbuflen);
      ghost var s := UpToNul(mbuf[offset..mbuflen]);
      assert mbuf[offset..offset + n] == mbuf[offset..mbuflen][..n] == s;
      offset' := offset + n + 1;
      if offset' > mbuflen {
        return -1, None, offset';
      }
      str := Some(mbuf[offset..offset + n]);
      assert mbuf[offset..mbuflen][n + 1..] == mbuf[offset'..mbuflen];
    }
  }
}
