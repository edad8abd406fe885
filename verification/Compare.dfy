/** The comparator of the top-N sort: type-directed, and truncated to a 32-bit `int` (repos.c). */
module Compare {
  import opened CBytes
  import opened TopN

  const MD_BOOL: bv16 := 0x0000
  const MD_UINT: bv16 := 0x0100
  const MD_SINT: bv16 := 0x0200
  const MD_FLOAT: bv16 := 0x0400
  const MD_CHAR16: bv16 := 0x0800
  const MD_DATETIME: bv16 := 0x1000
  const MD_STRING: bv16 := 0x2000
  const MD_16BIT: bv16 := 0x0001
  const MD_32BIT: bv16 := 0x0002
  const MD_64BIT: bv16 := 0x0004

  /** One result slot.  `None` stands for a NULL pointer. */
  datatype ValueItem = ValueItem(
    captureTime: Time, duration: int, value: seq<byte>, resource: Option<CString>, systemId: Option<CString>)

  /** What a floating-point buffer says; an infinity counts as a number beyond all finite ones. */
  datatype Floating = NaN | Num(value: real)

  /** The value of a floating-point buffer of 4 or 8 bytes. */
  type FloatReader = (seq<byte>, bool) -> Floating

  datatype Kind = Integer | Float | Text | Opaque

  function Has(type_: bv16, bits: bv16): bool { type_ & bits != 0 }

  function KindOf(type_: bv16): Kind {
    if type_ == MD_BOOL || Has(type_, MD_UINT) || Has(type_, MD_SINT) then Integer
    else if Has(type_, MD_FLOAT) then Float
    else if type_ == MD_CHAR16 then Integer
    else if Has(type_, MD_DATETIME | MD_STRING) then Text
    else Opaque
  }

  /** Bytes read for an integer type; the widest bit set wins. */
  function Width(type_: bv16): nat {
    if Has(type_, MD_64BIT) then 8 else if Has(type_, MD_32BIT) then 4 else if Has(type_, MD_16BIT) then 2 else 1
  }

  function First(b: seq<byte>, w: nat): seq<byte> { if w <= |b| then b[..w] else b }

  function Signed(n: nat, w: nat): int { if 2 * n < Pow256(w) then n else n - Pow256(w) }

  /** What the comparator makes of an integer-typed buffer; for booleans it takes 0 for true. */
  function Key(type_: bv16, b: seq<byte>): int {
    if type_ == MD_BOOL then (if Load(First(b, 1)) != 0 then 0 else 1)
    else if Has(type_, MD_UINT) then Load(First(b, Width(type_)))
    else if Has(type_, MD_SINT) then Signed(Load(First(b, Width(type_))), Width(type_))
    else Load(First(b, 2))
  }

  const MD_FALSE := 0
  const MD_TRUE := 1

  /** The number an integer-typed buffer stands for. */
  function Number(type_: bv16, b: seq<byte>): int {
    if type_ == MD_BOOL then (if Load(First(b, 1)) != 0 then MD_TRUE else MD_FALSE) else Key(type_, b)
  }

  function FloatOf(type_: bv16, fl: FloatReader, v: ValueItem): Floating { fl(v.value, Has(type_, MD_64BIT)) }

  predicate IsNaN(type_: bv16, fl: FloatReader, v: ValueItem) {
    KindOf(type_).Float? && FloatOf(type_, fl, v) == NaN
  }

  ghost predicate NoNaN(type_: bv16, fl: FloatReader, m: multiset<ValueItem>) {
    forall v :: v in m ==> !IsNaN(type_, fl, v)
  }

  /** A NaN is equal to nothing, and nothing is greater: every other comparison falls to the last branch. */
  function ValueCompare(type_: bv16, v: ValueItem, w: ValueItem, dir: bool, fl: FloatReader): int {
    match KindOf(type_)
    case Integer =>
      var (x, y) := (Key(type_, v.value), Key(type_, w.value));
      ToInt32(if dir then x - y else y - x)
    case Float =>
      var (x, y) := (FloatOf(type_, fl, v), FloatOf(type_, fl, w));
      if x.Num? && y.Num? && x.value == y.value then 0
      else if x.Num? && y.Num? && x.value - y.value > 0.0 then (if dir then 1 else -1)
      else (if dir then -1 else 1)
    case Text =>
      if dir then StrCmp(UpToNul(v.value), UpToNul(w.value)) else StrCmp(UpToNul(w.value), UpToNul(v.value))
    case Opaque => 0
  }

  function By(type_: bv16, dir: bool, fl: FloatReader): Comparator<ValueItem> {
    (v, w) => ValueCompare(type_, v, w, dir, fl)
  }

  lemma TruncationSane(d: int)
    ensures ToInt32(0) == 0 && (ToInt32(d) > 0 ==> ToInt32(-d) < 0)
  {
    RemainderOfNegative(d);
  }

  lemma SanePair(type_: bv16, v: ValueItem, w: ValueItem, dir: bool, fl: FloatReader)
    ensures ValueCompare(type_, v, v, dir, fl) == 0 <==> !IsNaN(type_, fl, v)
    ensures ValueCompare(type_, v, w, dir, fl) > 0 && !IsNaN(type_, fl, v) && !IsNaN(type_, fl, w) ==>
      ValueCompare(type_, w, v, dir, fl) < 0
  {
    match KindOf(type_)
    case Integer =>
      var d := if dir then Key(type_, v.value) - Key(type_, w.value) else Key(type_, w.value) - Key(type_, v.value);
      TruncationSane(d);
    case Text =>
      StrCmpEqual(UpToNul(v.value), UpToNul(v.value));
      StrCmpEqual(UpToNul(v.value), UpToNul(w.value));
    case _ =>
  }

  /** The comparator meets what the partition needs, however extreme the values, exactly if none of them is a NaN. */
  lemma SaneIff(type_: bv16, dir: bool, fl: FloatReader, m: multiset<ValueItem>)
    ensures SaneOn(By(type_, dir, fl), m) <==> NoNaN(type_, fl, m)
  {
    var c := By(type_, dir, fl);
    if NoNaN(type_, fl, m) {
      forall v, w | v in m && w in m ensures SaneAt(c, v, w) {
        SanePair(type_, v, w, dir, fl);
      }
    }
    if SaneOn(c, m) {
      forall v | v in m ensures !IsNaN(type_, fl, v) {
        assert SaneAt(c, v, v);
        SanePair(type_, v, v, dir, fl);
      }
    }
  }

  /** With a NaN for a pivot the partition never ends: ascending, its low scan runs out of the array; descending, its
      scans stay where they are, and it exchanges the same two elements over and over. */
  lemma {:induction false} NaNPivot(type_: bv16, dir: bool, fl: FloatReader, s: seq<ValueItem>, left: nat, low: nat,
                                    high: int, right: nat, n: nat)
    requires left <= low < high < right < |s| && IsNaN(type_, fl, s[right])
    ensures !Finishes(By(type_, dir, fl), s, left, low, high, right, n)
    decreases n
  {
    var c := By(type_, dir, fl);
    if dir {
      assert forall x :: c(x, s[right]) == -1;
    } else {
      assert LowStop(c, s, low, right) == low && HighStop(c, s, left, high, right) == high;
      if n > 0 {
        NaNPivot(type_, dir, fl, Swapped(s, low, high), left, low, high, right, n - 1);
      }
    }
  }

  lemma DescendingReverses(type_: bv16, v: ValueItem, w: ValueItem, fl: FloatReader)
    ensures ValueCompare(type_, v, w, false, fl) == ValueCompare(type_, w, v, true, fl)
      <==> !IsNaN(type_, fl, v) && !IsNaN(type_, fl, w)
  {
  }

  /** Everything but integers is compared without truncation. */
  lemma OthersPreorder(type_: bv16, dir: bool, fl: FloatReader, m: multiset<ValueItem>)
    requires !KindOf(type_).Integer? && NoNaN(type_, fl, m)
    ensures PreorderOn(By(type_, dir, fl), m)
  {
    var c := By(type_, dir, fl);
    forall x, y | x in m && y in m ensures TotalAt(c, x, y) {
      StrCmpEqual(UpToNul(x.value), UpToNul(y.value));
    }
    forall x, y, z | x in m && y in m && z in m ensures TransitiveAt(c, x, y, z) {
      if KindOf(type_).Text? && c(x, y) <= 0 && c(y, z) <= 0 {
        if dir {
          StrCmpTransitive(UpToNul(x.value), UpToNul(y.value), UpToNul(z.value));
        } else {
          StrCmpTransitive(UpToNul(z.value), UpToNul(y.value), UpToNul(x.value));
        }
      }
    }
  }

  /** The order that a type other than an integer type stands for; a NaN has no place in it. */
  ghost predicate Precedes(type_: bv16, fl: FloatReader, x: ValueItem, y: ValueItem) {
    match KindOf(type_)
    case Float =>
      var (a, b) := (FloatOf(type_, fl, x), FloatOf(type_, fl, y));
      a.Num? && b.Num? && a.value <= b.value
    case Text => UpToNul(x.value) == UpToNul(y.value) || Before(UpToNul(x.value), UpToNul(y.value))
    case _ => true
  }

  lemma OthersCompare(type_: bv16, dir: bool, fl: FloatReader, x: ValueItem, y: ValueItem)
    requires !KindOf(type_).Integer? && !IsNaN(type_, fl, x) && !IsNaN(type_, fl, y)
    ensures By(type_, dir, fl)(x, y) <= 0 <==> Arranged(type_, dir, fl, x, y)
  {
    var s, t := UpToNul(x.value), UpToNul(y.value);
    StrCmpEqual(s, t);
    StrCmpEqual(t, s);
    StrCmpIsAlphabetical(s, t);
    StrCmpIsAlphabetical(t, s);
  }

  ghost predicate Arranged(type_: bv16, dir: bool, fl: FloatReader, x: ValueItem, y: ValueItem) {
    if dir then Precedes(type_, fl, x, y) else Precedes(type_, fl, y, x)
  }

  /** In the requested order of the type. */
  ghost predicate TypeSorted(type_: bv16, dir: bool, fl: FloatReader, s: seq<ValueItem>) {
    forall i, j :: 0 <= i < j < |s| ==> Arranged(type_, dir, fl, s[i], s[j])
  }

  /** Without a NaN, values of the other types come out in the order of their type. */
  lemma OthersSorted(type_: bv16, dir: bool, fl: FloatReader, s: seq<ValueItem>, t: seq<ValueItem>)
    requires !KindOf(type_).Integer? && NoNaN(type_, fl, multiset(s)) && MqsortResult(By(type_, dir, fl), s, t)
    ensures TypeSorted(type_, dir, fl, t)
  {
    assert s[0..|s|] == s && t[0..|t|] == t;
    OthersPreorder(type_, dir, fl, multiset(s));
    forall i, j | 0 <= i < j < |t| ensures Arranged(type_, dir, fl, t[i], t[j]) {
      assert t[i] in multiset(t) && t[j] in multiset(t);
      OthersCompare(type_, dir, fl, t[i], t[j]);
    }
  }

  /** The exact condition for these types: whatever arrays are made of the values of `dom`, the sort gets through its
      partition and the result is in order, if and only if `dom` holds no NaN. */
  lemma OthersSortedIff(type_: bv16, dir: bool, fl: FloatReader, dom: set<ValueItem>)
    requires !KindOf(type_).Integer?
    ensures (forall s :: Over(s, dom) && s != [] ==> SortsWell(type_, dir, fl, s)) <==> NoNaN(type_, fl, multiset(dom))
  {
    if NoNaN(type_, fl, multiset(dom)) {
      forall s | Over(s, dom) && s != [] ensures SortsWell(type_, dir, fl, s) {
        WithoutNaN(type_, dir, fl, s);
      }
    } else {
      var v :| v in dom && IsNaN(type_, fl, v);
      var s := seq(11, _ => v);
      forall n: nat ensures !PartitionedBy(By(type_, dir, fl), s, n) {
        NaNPivot(type_, dir, fl, s, 0, 0, 9, 10, n);
      }
      assert Over(s, dom) && !SortsWell(type_, dir, fl, s);
    }
  }

  ghost predicate SortsWell(type_: bv16, dir: bool, fl: FloatReader, s: seq<ValueItem>) {
    var c := By(type_, dir, fl);
    GetsThrough(c, s) && forall t :: MqsortResult(c, s, t) ==> TypeSorted(type_, dir, fl, t)
  }

  lemma WithoutNaN(type_: bv16, dir: bool, fl: FloatReader, s: seq<ValueItem>)
    requires !KindOf(type_).Integer? && s != [] && NoNaN(type_, fl, multiset(s))
    ensures SortsWell(type_, dir, fl, s)
  {
    var c := By(type_, dir, fl);
    SaneIff(type_, dir, fl, multiset(s));
    SaneGetsThrough(c, s);
    forall t | MqsortResult(c, s, t) ensures TypeSorted(type_, dir, fl, t) {
      OthersSorted(type_, dir, fl, s, t);
    }
  }

  /** Even where no partition is made a NaN does harm: between 2 and 1 it keeps them from being exchanged. */
  lemma NaNHidesOrder(fl: FloatReader, two: ValueItem, nan: ValueItem, one: ValueItem)
    requires fl(two.value, false) == Num(2.0) && fl(nan.value, false) == NaN && fl(one.value, false) == Num(1.0)
    ensures var c := By(MD_FLOAT, true, fl); Bubbled(c, [two, nan, one], 0, 0, 2) == [two, nan, one]
    ensures Precedes(MD_FLOAT, fl, one, two) && !Precedes(MD_FLOAT, fl, two, one)
  {
    var c, s := By(MD_FLOAT, true, fl), [two, nan, one];
    assert c(two, nan) == -1 && c(nan, one) == -1;
    assert Sweep(c, s, 2, 2) == (s, false);
    assert Sweep(c, s, 1, 2) == (s, false);
    assert Sweep(c, s, 0, 2) == (s, false);
  }

  // ----- what the types say -----

  /** Numbers of floating-point types (0x0400) are compared by their value, of 8 bytes if bit 4 is set. */
  lemma FloatNumbers(type_: bv16, fl: FloatReader, x: ValueItem, y: ValueItem)
    requires type_ & 0x0300 == 0 && type_ & 0x0400 != 0
    requires fl(x.value, type_ & 4 != 0).Num? && fl(y.value, type_ & 4 != 0).Num?
    ensures var (a, b) := (fl(x.value, type_ & 4 != 0).value, fl(y.value, type_ & 4 != 0).value);
      && (By(type_, true, fl)(x, y) <= 0 <==> a <= b) && (By(type_, false, fl)(x, y) <= 0 <==> a >= b)
  {
    assert type_ & 0x0100 == 0 && type_ & 0x0200 == 0 && type_ != 0;
  }

  /** Dates and strings (0x1000, 0x2000) are compared alphabetically, up to their terminators. */
  lemma StringsCompared(type_: bv16, fl: FloatReader, x: ValueItem, y: ValueItem, s: CString, t: CString,
                        p: seq<byte>, q: seq<byte>)
    requires type_ & 0x0700 == 0 && type_ & 0x3000 != 0
    requires x.value == s + [0] + p && y.value == t + [0] + q
    ensures By(type_, true, fl)(x, y) <= 0 <==> s == t || Before(s, t)
    ensures By(type_, false, fl)(x, y) <= 0 <==> s == t || Before(t, s)
  {
    assert KindOf(type_).Text? by {
      TextKind(type_);
    }
    UpToNulOf(s, p);
    UpToNulOf(t, q);
    OthersCompare(type_, true, fl, x, y);
    OthersCompare(type_, false, fl, x, y);
  }

  lemma TextKind(type_: bv16)
    requires type_ & 0x0700 == 0 && type_ & 0x3000 != 0
    ensures KindOf(type_).Text?
  {
    assert type_ & 0x0100 == 0 && type_ & 0x0200 == 0 && type_ & 0x0400 == 0;
    assert type_ != 0 && type_ != 0x0800;
  }

  /** Other types are not compared. */
  lemma UserTypes(type_: bv16, dir: bool, fl: FloatReader, x: ValueItem, y: ValueItem)
    requires type_ & 0x3700 == 0 && type_ != 0 && type_ != 0x0800
    ensures By(type_, dir, fl)(x, y) == 0
  {
    UserKind(type_);
  }

  lemma UserKind(type_: bv16)
    requires type_ & 0x3700 == 0 && type_ != 0 && type_ != 0x0800
    ensures KindOf(type_).Opaque?
  {
    assert type_ & 0x0100 == 0 && type_ & 0x0200 == 0 && type_ & 0x0400 == 0 && type_ & 0x3000 == 0;
  }

  // ----- integers: what their bytes say -----

  lemma NumberOfWidth(type_: bv16, n: nat, w: nat, rest: seq<byte>)
    requires Has(type_, MD_UINT) && w == Width(type_) && n < Pow256(w)
    ensures Number(type_, Little(n, w) + rest) == n
  {
    LoadLittle(n, w);
    assert First(Little(n, w) + rest, w) == Little(n, w);
  }

  /** An unsigned number takes 8, 4, 2 or 1 bytes; the widest bit set in the type decides. */
  lemma UnsignedNumber(type_: bv16, n: nat, rest: seq<byte>)
    requires type_ & 0x0100 != 0
    ensures KindOf(type_).Integer?
    ensures type_ & 4 != 0 && n < 0x1_0000_0000_0000_0000 ==> Number(type_, Little(n, 8) + rest) == n
    ensures type_ & 4 == 0 && type_ & 2 != 0 && n < 0x1_0000_0000 ==> Number(type_, Little(n, 4) + rest) == n
    ensures type_ & 4 == 0 && type_ & 2 == 0 && type_ & 1 != 0 && n < 0x1_0000 ==>
      Number(type_, Little(n, 2) + rest) == n
    ensures type_ & 4 == 0 && type_ & 2 == 0 && type_ & 1 == 0 && n < 0x100 ==>
      Number(type_, Little(n, 1) + rest) == n
  {
    Widths();
    if n < Pow256(Width(type_)) {
      NumberOfWidth(type_, n, Width(type_), rest);
    }
  }

  /** The bytes that a value shorter than its type lacks count as 0. */
  lemma ShortNumber(type_: bv16, n: nat, w: nat)
    requires type_ & 0x0100 != 0 && w < Width(type_) && n < Pow256(w)
    ensures Number(type_, Little(n, w)) == n
  {
    LoadLittle(n, w);
  }

  lemma SignedOfWidth(type_: bv16, x: int, w: nat, rest: seq<byte>)
    requires Has(type_, MD_SINT) && !Has(type_, MD_UINT) && w == Width(type_) && -Pow256(w) <= 2 * x < Pow256(w)
    ensures Number(type_, Little(if x < 0 then x + Pow256(w) else x, w) + rest) == x
  {
    var n := if x < 0 then x + Pow256(w) else x;
    LoadLittle(n, w);
    assert First(Little(n, w) + rest, w) == Little(n, w);
  }

  /** A signed number is stored as two's complement of the same widths. */
  lemma SignedNumber(type_: bv16, x: int, rest: seq<byte>)
    requires type_ & 0x0200 != 0 && type_ & 0x0100 == 0
    ensures KindOf(type_).Integer?
    ensures type_ & 4 != 0 && -0x8000_0000_0000_0000 <= x < 0x8000_0000_0000_0000 ==>
      Number(type_, Little(if x < 0 then x + 0x1_0000_0000_0000_0000 else x, 8) + rest) == x
    ensures type_ & 4 == 0 && type_ & 2 != 0 && -0x8000_0000 <= x < 0x8000_0000 ==>
      Number(type_, Little(if x < 0 then x + 0x1_0000_0000 else x, 4) + rest) == x
    ensures type_ & 4 == 0 && type_ & 2 == 0 && type_ & 1 != 0 && -0x8000 <= x < 0x8000 ==>
      Number(type_, Little(if x < 0 then x + 0x1_0000 else x, 2) + rest) == x
    ensures type_ & 4 == 0 && type_ & 2 == 0 && type_ & 1 == 0 && -0x80 <= x < 0x80 ==>
      Number(type_, Little(if x < 0 then x + 0x100 else x, 1) + rest) == x
  {
    Widths();
    if -Pow256(Width(type_)) <= 2 * x < Pow256(Width(type_)) {
      SignedOfWidth(type_, x, Width(type_), rest);
    }
  }

  /** A character (type 0x0800) is a number of two bytes, a boolean (type 0) one byte that is zero or not. */
  lemma CharacterAndBoolean(n: nat, b: byte, rest: seq<byte>)
    ensures KindOf(0x0800).Integer? && KindOf(0).Integer?
    ensures n < 0x1_0000 ==> Number(0x0800, Little(n, 2) + rest) == n
    ensures Number(0, [b] + rest) == if b == 0 then 0 else 1
  {
    Widths();
    if n < 0x1_0000 {
      LoadLittle(n, 2);
      assert First(Little(n, 2) + rest, 2) == Little(n, 2);
    }
    assert First([b] + rest, 1) == [b] && [b][1..] == [];
    assert Load([]) == 0;
  }

  /** Every ascending sort exchanges 65536 and 1 as 64-bit unsigned numbers. */
  lemma WidePairSorted(fl: FloatReader, large: ValueItem, one: ValueItem, t: seq<ValueItem>)
    requires large.value == [0, 0, 1, 0, 0, 0, 0, 0] && one.value == [1, 0, 0, 0, 0, 0, 0, 0]
    requires MqsortResult(By(0x0104, true, fl), [large, one], t)
    ensures t == [one, large]
  {
    assert By(0x0104, true, fl)(large, one) > 0 by {
      WidePair(fl, large, one);
    }
  }

  lemma WidePair(fl: FloatReader, large: ValueItem, one: ValueItem)
    requires large.value == [0, 0, 1, 0, 0, 0, 0, 0] && one.value == [1, 0, 0, 0, 0, 0, 0, 0]
    ensures By(0x0104, true, fl)(large, one) == 65535
  {
    EightBytes(0, 0, 1);
    EightBytes(1, 0, 0);
  }

  lemma EightBytes(a: byte, b: byte, c: byte)
    ensures Key(0x0104, [a, b, c, 0, 0, 0, 0, 0]) == a + 0x100 * b + 0x1_0000 * c
  {
    var z: seq<byte> := [0, 0, 0, 0, 0];
    assert Load(z) == 0 by {
      assert z[1..] == [0, 0, 0, 0] && z[1..][1..] == [0, 0, 0] && z[1..][1..][1..] == [0, 0];
      assert z[1..][1..][1..][1..] == [0] && z[1..][1..][1..][1..][1..] == [];
      assert Load([]) == 0 && Load([0]) == 0 && Load([0, 0]) == 0 && Load([0, 0, 0]) == 0 && Load([0, 0, 0, 0]) == 0;
    }
    var s := [a, b, c, 0, 0, 0, 0, 0];
    assert s[..8] == s && s[1..] == [b, c] + z && ([b, c] + z)[1..] == [c] + z && ([c] + z)[1..] == z;
    assert Load([c] + z) == c && Load([b, c] + z) == b + 0x100 * c;
  }

  // ----- integers: where truncation is harmless -----

  /** A difference whose 32-bit truncation keeps its sign, whichever way it is taken. */
  predicate Reliable(d: int) {
    d == 0 || 1 <= Abs(d) % TWO_32 <= INT_MAX
  }

  lemma ReliableSign(d: int)
    ensures Reliable(d) <==>
      && (ToInt32(d) < 0 <==> d < 0) && (ToInt32(d) > 0 <==> d > 0)
      && (ToInt32(-d) < 0 <==> d > 0) && (ToInt32(-d) > 0 <==> d < 0)
  {
    RemainderOfNegative(d);
    RemainderOfNegative(-d);
  }

  lemma UnreliableStays(d: int)
    requires d > 0 && !Reliable(d)
    ensures ToInt32(d) <= 0
  {
  }

  predicate ReliablePair(type_: bv16, x: ValueItem, y: ValueItem) {
    Reliable(Key(type_, x.value) - Key(type_, y.value))
  }

  /** The spread bound implies reliability; for at most 32 bits it is the same thing. */
  lemma SpreadReliable(type_: bv16, x: ValueItem, y: ValueItem)
    requires KindOf(type_).Integer?
    ensures Abs(Key(type_, x.value) - Key(type_, y.value)) <= INT_MAX ==> ReliablePair(type_, x, y)
    ensures Width(type_) <= 4 || type_ == MD_BOOL || type_ == MD_CHAR16 ==>
      (ReliablePair(type_, x, y) <==> Abs(Key(type_, x.value) - Key(type_, y.value)) <= INT_MAX)
    ensures Width(type_) <= 2 || type_ == MD_BOOL || type_ == MD_CHAR16 ==> ReliablePair(type_, x, y)
  {
    Widths();
    KeyRange(type_, x.value);
    KeyRange(type_, y.value);
    SmallReliable(Key(type_, x.value) - Key(type_, y.value));
  }

  lemma SmallReliable(d: int)
    ensures Abs(d) <= INT_MAX ==> Reliable(d)
    ensures Abs(d) < TWO_32 ==> (Reliable(d) <==> Abs(d) <= INT_MAX)
  {
  }

  lemma KeyRange(type_: bv16, b: seq<byte>)
    requires KindOf(type_).Integer?
    ensures var w := if type_ == MD_BOOL || !(Has(type_, MD_UINT) || Has(type_, MD_SINT)) then 2 else Width(type_);
      if Has(type_, MD_SINT) && !Has(type_, MD_UINT) then -Pow256(w) <= 2 * Key(type_, b) < Pow256(w)
      else 0 <= Key(type_, b) < Pow256(w)
  {
    Widths();
    ShortLoad(b, 1);
    ShortLoad(b, 2);
    ShortLoad(b, Width(type_));
  }

  lemma ShortLoad(b: seq<byte>, w: nat)
    ensures Load(First(b, w)) < Pow256(w)
  {
    LoadBound(First(b, w));
    PowMonotone(|First(b, w)|, w);
  }

  lemma {:induction false} PowMonotone(v: nat, w: nat)
    requires v <= w
    ensures Pow256(v) <= Pow256(w)
  {
    if v < w {
      PowMonotone(v, w - 1);
    }
  }

  /** `x` may stand before `y`: the order a client asks for. */
  predicate InOrder(type_: bv16, dir: bool, x: ValueItem, y: ValueItem) {
    if dir then Number(type_, x.value) <= Number(type_, y.value) else Number(type_, x.value) >= Number(type_, y.value)
  }

  ghost predicate NumericallySorted(type_: bv16, dir: bool, s: seq<ValueItem>) {
    forall i, j :: 0 <= i < j < |s| ==> InOrder(type_, dir, s[i], s[j])
  }

  /** The direction the comparator really follows: booleans are compared the wrong way round. */
  predicate Followed(type_: bv16, dir: bool) {
    dir != (type_ == MD_BOOL)
  }

  lemma ReliableCompare(type_: bv16, dir: bool, fl: FloatReader, x: ValueItem, y: ValueItem)
    requires KindOf(type_).Integer? && ReliablePair(type_, x, y)
    ensures By(type_, dir, fl)(x, y) <= 0 <==> InOrder(type_, Followed(type_, dir), x, y)
  {
    ReliableSign(Key(type_, x.value) - Key(type_, y.value));
  }

  ghost predicate Over<T>(s: seq<T>, dom: set<T>) {
    forall i :: 0 <= i < |s| ==> s[i] in dom
  }

  lemma ReliablePreorder(type_: bv16, dir: bool, fl: FloatReader, m: multiset<ValueItem>)
    requires KindOf(type_).Integer?
    requires forall x, y :: x in m && y in m ==> ReliablePair(type_, x, y)
    ensures PreorderOn(By(type_, dir, fl), m)
  {
    var c, d := By(type_, dir, fl), Followed(type_, dir);
    forall x, y | x in m && y in m ensures c(x, y) <= 0 <==> InOrder(type_, d, x, y) {
      assert ReliablePair(type_, x, y);
      ReliableCompare(type_, dir, fl, x, y);
    }
  }

  /** Pairwise reliable values come out sorted in the direction that the comparator follows. */
  lemma ReliableSorted(type_: bv16, dir: bool, fl: FloatReader, dom: set<ValueItem>, s: seq<ValueItem>,
                       t: seq<ValueItem>)
    requires KindOf(type_).Integer?
    requires forall x, y :: x in dom && y in dom ==> ReliablePair(type_, x, y)
    requires Over(s, dom) && MqsortResult(By(type_, dir, fl), s, t)
    ensures NumericallySorted(type_, Followed(type_, dir), t)
  {
    var d := Followed(type_, dir);
    assert s[0..|s|] == s && t[0..|t|] == t;
    ReliablePreorder(type_, dir, fl, multiset(s));
    forall i, j | 0 <= i < j < |t| ensures InOrder(type_, d, t[i], t[j]) {
      assert t[i] in multiset(s) && t[j] in multiset(s);
      assert ReliablePair(type_, t[i], t[j]);
      ReliableCompare(type_, dir, fl, t[i], t[j]);
    }
  }

  /** What two values must be like to be sorted as requested: booleans must not be different truth values; other
      integers must have a reliable difference. */
  predicate SortablePair(type_: bv16, x: ValueItem, y: ValueItem) {
    if type_ == MD_BOOL then Number(type_, x.value) == Number(type_, y.value) else ReliablePair(type_, x, y)
  }

  /** The exact condition: the values of `dom` are sorted in the requested direction by `Mqsort` in every array they
      can form, if and only if every pair of them is sortable. */
  lemma SortsNumericallyIff(type_: bv16, dir: bool, fl: FloatReader, dom: set<ValueItem>)
    requires KindOf(type_).Integer?
    ensures (forall s, t :: Over(s, dom) && MqsortResult(By(type_, dir, fl), s, t) ==> NumericallySorted(type_, dir, t))
      <==> (forall x, y :: x in dom && y in dom ==> SortablePair(type_, x, y))
  {
    var c := By(type_, dir, fl);
    if forall x, y :: x in dom && y in dom ==> SortablePair(type_, x, y) {
      forall s, t | Over(s, dom) && MqsortResult(c, s, t) ensures NumericallySorted(type_, dir, t) {
        SortableSorted(type_, dir, fl, dom, s, t);
      }
    } else {
      var x, y :| x in dom && y in dom && !SortablePair(type_, x, y);
      UnsortablePairFails(type_, dir, fl, x, y);
      assert exists s, t :: Over(s, dom) && MqsortResult(c, s, t) && !NumericallySorted(type_, dir, t);
    }
  }

  lemma SortableSorted(type_: bv16, dir: bool, fl: FloatReader, dom: set<ValueItem>, s: seq<ValueItem>,
                       t: seq<ValueItem>)
    requires KindOf(type_).Integer?
    requires forall x, y :: x in dom && y in dom ==> SortablePair(type_, x, y)
    requires Over(s, dom) && MqsortResult(By(type_, dir, fl), s, t)
    ensures NumericallySorted(type_, dir, t)
  {
    if type_ == MD_BOOL {
      forall i, j | 0 <= i < j < |t| ensures InOrder(type_, dir, t[i], t[j]) {
        assert t[i] in multiset(t) && t[j] in multiset(t);
        assert t[i] in dom && t[j] in dom;
        assert SortablePair(type_, t[i], t[j]);
      }
    } else {
      assert forall x, y :: x in dom && y in dom ==> SortablePair(type_, x, y) == ReliablePair(type_, x, y);
      ReliableSorted(type_, dir, fl, dom, s, t);
    }
  }

  lemma KeepsPair<T>(c: Comparator<T>, s: seq<T>)
    requires |s| == 2 && c(s[0], s[1]) <= 0
    ensures MqsortResult(c, s, s)
  {
    BubbleSortSorts(c, s, 0, 1);
    BubbledPair(c, s, 0);
  }

  /** For an unsortable pair one of the two arrangements comes out unsorted. */
  lemma UnsortablePairFails(type_: bv16, dir: bool, fl: FloatReader, x: ValueItem, y: ValueItem)
    requires KindOf(type_).Integer? && !SortablePair(type_, x, y)
    ensures exists s, t ::
      Over(s, {x, y}) && MqsortResult(By(type_, dir, fl), s, t) && !NumericallySorted(type_, dir, t)
  {
    var s := if InOrder(type_, dir, x, y) then [y, x] else [x, y];
    UnsortableStays(type_, dir, fl, s[0], s[1]);
    KeepsPair(By(type_, dir, fl), s);
    assert !InOrder(type_, dir, s[0], s[1]) && Over(s, {x, y});
  }

  /** The unsigned numbers 2^31 and 0 make such an array: ascending, the larger one stays in front. */
  lemma LargeStaysBeforeZero(fl: FloatReader, large: ValueItem, zero: ValueItem)
    requires large.value == [0, 0, 0, 128] && zero.value == [0, 0, 0, 0]
    ensures var type_ := MD_UINT | MD_32BIT; var s := [large, zero];
      && Number(type_, large.value) == TWO_31 && Number(type_, zero.value) == 0
      && MqsortResult(By(type_, true, fl), s, s) && !NumericallySorted(type_, true, s)
  {
    var type_ := MD_UINT | MD_32BIT;
    var s := [large, zero];
    FourBytes(0, 0, 0, 128);
    FourBytes(0, 0, 0, 0);
    assert By(type_, true, fl)(large, zero) == -TWO_31;
    KeepsPair(By(type_, true, fl), s);
    assert !InOrder(type_, true, s[0], s[1]);
  }

  lemma FourBytes(a: byte, b: byte, c: byte, d: byte)
    ensures Key(MD_UINT | MD_32BIT, [a, b, c, d]) == a + 0x100 * b + 0x1_0000 * c + 0x100_0000 * d
  {
    assert [a, b, c, d][..4] == [a, b, c, d] && [a, b, c, d][1..] == [b, c, d] && [b, c, d][1..] == [c, d];
    assert [c, d][1..] == [d] && [d][1..] == [];
    assert (MD_UINT | MD_32BIT) & MD_64BIT == 0 && Width(MD_UINT | MD_32BIT) == 4;
    assert Load([]) == 0 && Load([d]) == d && Load([c, d]) == c + 0x100 * d;
    assert Load([b, c, d]) == b + 0x100 * Load([c, d]);
  }

  /** The comparator does not object to the wrong arrangement of an unsortable pair. */
  lemma UnsortableStays(type_: bv16, dir: bool, fl: FloatReader, x: ValueItem, y: ValueItem)
    requires KindOf(type_).Integer? && !SortablePair(type_, x, y) && !InOrder(type_, dir, x, y)
    ensures By(type_, dir, fl)(x, y) <= 0
  {
    if type_ != MD_BOOL {
      UnreliableStays(Abs(Key(type_, x.value) - Key(type_, y.value)));
    }
  }

  /** The input that shows it: true before false passes for ascending order. */
  lemma TrueStaysBeforeFalse(fl: FloatReader, yes: ValueItem, no: ValueItem)
    requires yes.value == [MD_TRUE] && no.value == [MD_FALSE]
    ensures MqsortResult(By(MD_BOOL, true, fl), [yes, no], [yes, no])
    ensures !NumericallySorted(MD_BOOL, true, [yes, no])
  {
    var s := [yes, no];
    assert First(yes.value, 1) == [1] && First(no.value, 1) == [0];
    assert [1][1..] == [] && [0][1..] == [] && Load([]) == 0;
    assert Number(MD_BOOL, yes.value) == MD_TRUE && Number(MD_BOOL, no.value) == MD_FALSE;
    assert By(MD_BOOL, true, fl)(yes, no) == -1;
    KeepsPair(By(MD_BOOL, true, fl), s);
    assert !InOrder(MD_BOOL, true, s[0], s[1]);
  }

  /** Boolean arrays come out as requested exactly if they cannot hold both truth values. */
  lemma BooleansSortedIff(dir: bool, fl: FloatReader, dom: set<ValueItem>)
    ensures (forall s, t :: Over(s, dom) && MqsortResult(By(MD_BOOL, dir, fl), s, t) ==>
             NumericallySorted(MD_BOOL, dir, t))
      <==> (forall x, y :: x in dom && y in dom ==> Number(MD_BOOL, x.value) == Number(MD_BOOL, y.value))
  {
    SortsNumericallyIff(MD_BOOL, dir, fl, dom);
    assert forall x, y :: SortablePair(MD_BOOL, x, y) <==> Number(MD_BOOL, x.value) == Number(MD_BOOL, y.value);
  }
}
