/** Bytes, NUL-terminated strings and fixed-width integers as the C code sees them. */
module CBytes {

  type byte = x: int | 0 <= x < 256

  /** The characters of a NUL-terminated string, without the terminator. */
  type CString = s: seq<byte> | 0 !in s

  const TWO_31: int := 0x8000_0000
  const TWO_32: int := 0x1_0000_0000
  const INT_MAX: int := 0x7FFF_FFFF
  const LONG_MAX: int := 0x7FFF_FFFF_FFFF_FFFF

  type Word8 = x: int | 0 <= x < 0x100
  type Word16 = x: int | 0 <= x < 0x1_0000
  type Word32 = x: int | 0 <= x < 0x1_0000_0000
  type Word64 = x: int | 0 <= x < 0x1_0000_0000_0000_0000
  type Int32 = x: int | -TWO_31 <= x < TWO_31
  type Time = t: int | -LONG_MAX - 1 <= t <= LONG_MAX

  datatype Option<+T> = None | Some(value: T) {
    predicate IsFailure() { None? }
    function PropagateFailure<U>(): Option<U>
      requires None?
    {
      None
    }
    function Extract(): T
      requires Some?
    {
      value
    }
  }

  /** Conversion of a wider integer to a 32-bit `int`. */
  function ToInt32(x: int): (r: int)
    ensures -TWO_31 <= r < TWO_31 && (r - x) % TWO_32 == 0
  {
    var m := x % TWO_32;
    if m < TWO_31 then m else m - TWO_32
  }

  lemma RemainderIs(x: int, q: int, m: int)
    requires x == TWO_32 * q + m && 0 <= m < TWO_32
    ensures x % TWO_32 == m
  {
    var k, r := x / TWO_32, x % TWO_32;
    assert x == TWO_32 * k + r;
  }

  lemma RemainderOfNegative(x: int)
    ensures (-x) % TWO_32 == if x % TWO_32 == 0 then 0 else TWO_32 - x % TWO_32
  {
    var q, m := x / TWO_32, x % TWO_32;
    assert x == TWO_32 * q + m;
    if m == 0 {
      RemainderIs(-x, -q, 0);
    } else {
      RemainderIs(-x, -q - 1, TWO_32 - m);
    }
  }

  function Abs(x: int): nat { if x < 0 then -x else x }

  // ----- strings -----

  function StrCmp(s: CString, t: CString): int {
    if s == [] && t == [] then 0
    else if s == [] then -t[0]
    else if t == [] then s[0]
    else if s[0] != t[0] then s[0] - t[0]
    else StrCmp(s[1..], t[1..])
  }

  lemma {:induction false} StrCmpEqual(s: CString, t: CString)
    ensures StrCmp(s, t) == 0 <==> s == t
    ensures StrCmp(t, s) == -StrCmp(s, t)
  {
    if s != [] && t != [] && s[0] == t[0] {
      StrCmpEqual(s[1..], t[1..]);
      assert s == [s[0]] + s[1..] && t == [t[0]] + t[1..];
    }
  }

  /** Alphabetical order: a proper beginning, or smaller at the first difference. */
  ghost predicate Before(s: CString, t: CString) {
    s < t || exists k: nat :: Differ(s, t, k)
  }

  lemma {:induction false} StrCmpIsAlphabetical(s: CString, t: CString)
    ensures StrCmp(s, t) < 0 <==> Before(s, t)
  {
    if s != [] && t != [] && s[0] == t[0] {
      StrCmpIsAlphabetical(s[1..], t[1..]);
      BeforeTail(s, t);
    } else if s != [] && t != [] && s[0] < t[0] {
      assert Differ(s, t, 0);
    } else if s == [] {
      assert Before(s, t) <==> t != [];
    }
  }

  ghost predicate Differ(s: CString, t: CString, k: nat) {
    k < |s| && k < |t| && s[..k] == t[..k] && s[k] < t[k]
  }

  lemma DifferTail(s: CString, t: CString, k: nat)
    requires s != [] && t != [] && s[0] == t[0]
    ensures Differ(s[1..], t[1..], k) <==> Differ(s, t, k + 1)
    ensures !Differ(s, t, 0)
  {
    if k < |s| - 1 && k < |t| - 1 {
      assert s[..k + 1] == [s[0]] + s[1..][..k] && t[..k + 1] == [t[0]] + t[1..][..k];
    }
  }

  lemma BeforeTail(s: CString, t: CString)
    requires s != [] && t != [] && s[0] == t[0]
    ensures Before(s, t) <==> Before(s[1..], t[1..])
  {
    var u, v := s[1..], t[1..];
    assert s == [s[0]] + u && t == [t[0]] + v;
    if k: nat :| Differ(s, t, k) {
      DifferTail(s, t, 0);
      DifferTail(s, t, k - 1);
    }
    if k: nat :| Differ(u, v, k) {
      DifferTail(s, t, k);
    }
  }

  lemma {:induction false} StrCmpTransitive(s: CString, t: CString, u: CString)
    requires StrCmp(s, t) <= 0 && StrCmp(t, u) <= 0
    ensures StrCmp(s, u) <= 0
    ensures StrCmp(s, t) < 0 || StrCmp(t, u) < 0 ==> StrCmp(s, u) < 0
  {
    if s != [] && t != [] && u != [] && s[0] == t[0] == u[0] {
      StrCmpTransitive(s[1..], t[1..], u[1..]);
    }
  }

  /** `memcmp` over the bytes of a terminated string `y`: the sign of the first difference. */
  function MemCmp(x: seq<byte>, y: seq<byte>): int {
    if x == [] || y == [] then 0
    else if x[0] != y[0] then x[0] - y[0]
    else MemCmp(x[1..], y[1..])
  }

  /** Comparing terminators along with the characters makes `memcmp` agree with `strcmp`. */
  lemma {:induction false} MemCmpIsStrCmp(s: CString, t: CString)
    ensures MemCmp(s + [0], t + [0]) == StrCmp(s, t)
  {
    if s != [] && t != [] && s[0] == t[0] {
      assert (s + [0])[1..] == s[1..] + [0] && (t + [0])[1..] == t[1..] + [0];
      MemCmpIsStrCmp(s[1..], t[1..]);
    } else if s == [] && t == [] {
      assert (s + [0])[1..] == [];
    }
  }

  /** The string that starts at the first byte of `b`. */
  function UpToNul(b: seq<byte>): (s: CString)
    ensures |s| <= |b| && s == b[..|s|]
    ensures |s| == |b| || b[|s|] == 0
  {
    if b == [] || b[0] == 0 then [] else [b[0]] + UpToNul(b[1..])
  }

  lemma {:induction false} UpToNulOf(s: CString, rest: seq<byte>)
    ensures UpToNul(s + [0] + rest) == s
  {
    var b := s + [0] + rest;
    if s != [] {
      assert b[1..] == s[1..] + [0] + rest;
      UpToNulOf(s[1..], rest);
    }
  }

  // ----- little-endian integers -----

  function Pow256(w: nat): (r: int)
    ensures r > 0
  {
    if w == 0 then 1 else 256 * Pow256(w - 1)
  }

  /** The `w` bytes of `n`, least significant first. */
  function Little(n: nat, w: nat): (b: seq<byte>)
    ensures |b| == w
  {
    if w == 0 then [] else [n % 256] + Little(n / 256, w - 1)
  }

  function Load(b: seq<byte>): (n: nat) {
    if b == [] then 0 else b[0] + 256 * Load(b[1..])
  }

  lemma {:induction false} LoadLittle(n: nat, w: nat)
    requires n < Pow256(w)
    ensures Load(Little(n, w)) == n
  {
    if w > 0 {
      assert Little(n, w)[1..] == Little(n / 256, w - 1);
      LoadLittle(n / 256, w - 1);
    }
  }

  /** Byte `k` of a number, counted from the least significant one. */
  lemma {:induction false} LittleAt(n: nat, w: nat, k: nat)
    requires k < w
    ensures Little(n, w)[k] == n / Pow256(k) % 256
  {
    if k > 0 {
      LittleAt(n / 256, w - 1, k - 1);
      DivDiv(n, Pow256(k - 1));
    } else {
      assert n / Pow256(0) == n / 1 == n;
    }
  }

  lemma DivDiv(n: nat, p: nat)
    requires p > 0
    ensures n / 256 / p == n / (256 * p)
  {
    var q, r := n / 256, n % 256;
    var a, b := q / p, q % p;
    assert n == 256 * q + r && q == p * a + b;
    assert n == 256 * (p * a + b) + r == (256 * p) * a + (256 * b + r);
    QuotientIs(n, 256 * p, a, 256 * b + r);
  }

  lemma QuotientIs(n: int, d: int, q: int, r: int)
    requires d > 0 && n == d * q + r && 0 <= r < d
    ensures n / d == q
  {
    var k := n / d;
    if k > q {
      Steps(d, q, k);
    } else if k < q {
      Steps(d, k, q);
    }
  }

  lemma Steps(d: int, a: int, b: int)
    requires d > 0 && a < b
    ensures d * a + d <= d * b
  {
    assert d * (b - a - 1) >= 0;
  }

  lemma {:induction false} LoadBound(b: seq<byte>)
    ensures Load(b) < Pow256(|b|)
  {
    if b != [] {
      LoadBound(b[1..]);
    }
  }

  lemma Widths()
    ensures Pow256(1) == 256 && Pow256(2) == 0x1_0000 && Pow256(4) == TWO_32
    ensures Pow256(8) == 0x1_0000_0000_0000_0000
  {
    assert Pow256(4) == 256 * Pow256(3) && Pow256(3) == 256 * Pow256(2);
    assert Pow256(8) == 256 * Pow256(7) && Pow256(7) == 256 * Pow256(6);
    assert Pow256(6) == 256 * Pow256(5) && Pow256(5) == 256 * Pow256(4);
  }
}
