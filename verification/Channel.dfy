/** The text form of channel utilization and measurement characteristics (plugin/channelutil.c), and the metric block
    that joins the two (plugin/metriczCH.c, plugin/repositoryzCH.c). */
module Channel {
  import opened CBytes

  // ----- numbers -----

  /** Numbers are printed and read in decimal or hexadecimal. */
  type Base = b: nat | b == 10 || b == 16 witness 10

  function DigitChar(d: nat): (c: char)
    requires d < 16
    ensures DigitValue(c) == d
  {
    if d < 10 then ('0' as int + d) as char else ('a' as int + d - 10) as char
  }

  function DigitValue(c: char): (d: nat) {
    if '0' <= c <= '9' then c as int - '0' as int
    else if 'a' <= c <= 'f' then c as int - 'a' as int + 10
    else if 'A' <= c <= 'F' then c as int - 'A' as int + 10
    else 16
  }

  predicate IsDigit(c: char, base: Base) {
    DigitValue(c) < base
  }

  function Quotient(n: nat, base: Base): (q: nat)
    ensures n >= base ==> q < n
  {
    if base == 10 then n / 10 else n / 16
  }

  function Remainder(n: nat, base: Base): (r: nat)
    ensures r < base && Quotient(n, base) * base + r == n
  {
    if base == 10 then n % 10 else n % 16
  }

  /** `%u` and `%hhx` of `printf`. */
  function Digits(n: nat, base: Base): (s: string)
    ensures s != ""
    decreases n
  {
    if n < base then [DigitChar(n)] else Digits(Quotient(n, base), base) + [DigitChar(Remainder(n, base))]
  }

  lemma {:induction false} AllDigits(n: nat, base: Base)
    ensures forall c :: c in Digits(n, base) ==> IsDigit(c, base)
    decreases n
  {
    if n >= base {
      AllDigits(Quotient(n, base), base);
    }
  }

  function ReadDigits(acc: nat, s: string, base: Base): (nat, string)
    decreases |s|
  {
    if s == "" || !IsDigit(s[0], base) then (acc, s) else ReadDigits(acc * base + DigitValue(s[0]), s[1..], base)
  }

  /** A number conversion of `sscanf`: at least one digit, and as many as there are. */
  function GetNumber(s: string, base: Base): Option<(nat, string)> {
    if s == "" || !IsDigit(s[0], base) then None else Some(ReadDigits(0, s, base))
  }

  lemma {:induction false} ReadDigitsOf(n: nat, base: Base, t: string)
    ensures ReadDigits(0, Digits(n, base) + t, base) == ReadDigits(n, t, base)
    decreases n
  {
    if n < base {
      ReadOne(0, n, t, base);
    } else {
      var q, r := Quotient(n, base), Remainder(n, base);
      ReadDigitsOf(q, base, [DigitChar(r)] + t);
      ReadOne(q, r, t, base);
      assert Digits(n, base) + t == Digits(q, base) + ([DigitChar(r)] + t);
    }
  }

  lemma ReadOne(acc: nat, d: nat, t: string, base: Base)
    requires d < base
    ensures ReadDigits(acc, [DigitChar(d)] + t, base) == ReadDigits(acc * base + d, t, base)
  {
    assert ([DigitChar(d)] + t)[1..] == t;
  }

  lemma GetNumberOf(n: nat, base: Base, t: string)
    requires t == "" || !IsDigit(t[0], base)
    ensures GetNumber(Digits(n, base) + t, base) == Some((n, t))
  {
    ReadDigitsOf(n, base, t);
    AllDigits(n, base);
    assert (Digits(n, base) + t)[0] == Digits(n, base)[0] && Digits(n, base)[0] in Digits(n, base);
  }

  function Power(base: Base, k: nat): nat {
    if k == 0 then 1 else if base == 10 then 10 * Power(base, k - 1) else 16 * Power(base, k - 1)
  }

  /** A number below `base`^`k` prints in at most `k` digits. */
  lemma {:induction false} DigitsLength(n: nat, base: Base, k: nat)
    requires k > 0 && n < Power(base, k)
    ensures |Digits(n, base)| <= k
  {
    assert Power(base, 1) == base;
    if n >= base {
      DigitsLength(Quotient(n, base), base, k - 1);
    }
  }

  // ----- records of colon-separated fields -----

  /** The `:%u` fields of a format. */
  function Fields(xs: seq<Word32>): string {
    if xs == [] then "" else ":" + Digits(xs[0], 10) + Fields(xs[1..])
  }

  /** `sscanf` of up to `n` fields `:%u`; stops at the first that does not match. */
  function ScanFields(s: string, n: nat): (xs: seq<Word32>)
    ensures |xs| <= n
    decreases n
  {
    if n == 0 || s == "" || s[0] != ':' then []
    else
      match GetNumber(s[1..], 10)
      case None => []
      case Some(r) => [r.0 % TWO_32] + ScanFields(r.1, n - 1)
  }

  /** What may follow a record: nothing, or the separator. */
  predicate Ends(t: string) {
    t == "" || t[0] == SEPARATOR
  }

  const SEPARATOR := '!'

  lemma FieldsStart(xs: seq<Word32>, t: string)
    requires Ends(t)
    ensures Fields(xs) + t == "" || (Fields(xs) + t)[0] == ':' || (Fields(xs) + t)[0] == SEPARATOR
  {
  }

  lemma {:induction false} FieldsSplit(xs: seq<Word32>, t: string)
    requires xs != []
    ensures Fields(xs) + t == ":" + (Digits(xs[0], 10) + (Fields(xs[1..]) + t))
  {
  }

  lemma {:induction false} ScanFieldsOf(xs: seq<Word32>, n: nat, t: string)
    requires Ends(t) && |xs| <= n
    ensures ScanFields(Fields(xs) + t, n) == xs
    decreases |xs|
  {
    if xs != [] {
      var rest := Fields(xs[1..]) + t;
      FieldsSplit(xs, t);
      FieldsStart(xs[1..], t);
      GetNumberOf(xs[0], 10, rest);
      ScanFieldsOf(xs[1..], n - 1, t);
      ScanOne(xs[0], xs[1..], n - 1, Fields(xs) + t, rest);
      assert xs == [xs[0]] + xs[1..];
    }
  }

  lemma ScanOne(x: Word32, xs: seq<Word32>, n: nat, s: string, rest: string)
    requires s == ":" + (Digits(x, 10) + rest) && GetNumber(Digits(x, 10) + rest, 10) == Some((x, rest))
    requires ScanFields(rest, n) == xs
    ensures ScanFields(s, n + 1) == [x] + xs
  {
    assert s[1..] == Digits(x, 10) + rest;
  }

  lemma {:induction false} FieldsLength(xs: seq<Word32>)
    ensures |Fields(xs)| <= 11 * |xs|
    ensures SEPARATOR !in Fields(xs)
  {
    if xs != [] {
      TenDigits(xs[0]);
      AllDigits(xs[0], 10);
      assert !IsDigit(SEPARATOR, 10);
      FieldsLength(xs[1..]);
    }
  }

  lemma TenDigits(x: Word32)
    ensures |Digits(x, 10)| <= 10
  {
    assert Power(10, 5) == 10 * Power(10, 4) && Power(10, 4) == 10 * Power(10, 3) && Power(10, 3) == 10 * Power(10, 2);
    assert Power(10, 2) == 10 * Power(10, 1) && Power(10, 1) == 10 * Power(10, 0);
    assert Power(10, 10) == 10 * Power(10, 9) && Power(10, 9) == 10 * Power(10, 8) && Power(10, 8) == 10 * Power(10, 7);
    assert Power(10, 7) == 10 * Power(10, 6) && Power(10, 6) == 10 * Power(10, 5);
    DigitsLength(x, 10, 10);
  }

  lemma TwoDigits(x: Word8)
    ensures |Digits(x, 16)| <= 2
  {
    assert Power(16, 2) == 16 * Power(16, 1);
    DigitsLength(x, 16, 2);
  }

  // ----- channel utilization -----

  /** A `zChannelUtilization`; `words` are the eight words of the union of the three blocks. */
  datatype Utilization = Utilization(cmg: int, timestamp: Word32, cuiv: Word8, words: seq<Word32>) {
    predicate Valid() { |words| == WORDS }
  }

  const WORDS: nat := 8

  // The words of zCueBlock1.
  const CPC_PATH_BUSY: nat := 1
  const LPAR_PATH_BUSY: nat := 2
  // The words of zCueBlock2.
  const CPC_BUS_CYCLES: nat := 1
  const CPC_WORK_UNITS: nat := 2
  const LPAR_WORK_UNITS: nat := 3
  const CPC_DATA_WRITTEN: nat := 4
  const LPAR_DATA_WRITTEN: nat := 5
  const CPC_DATA_READ: nat := 6
  const LPAR_DATA_READ: nat := 7
  // The words of zCueBlock3.
  const LPAR_MSG_SENT: nat := 1
  const CPC_MSG_SENT: nat := 2
  const LPAR_UNSUCCESSFUL: nat := 3
  const LPAR_UNAVAILABLE: nat := 4
  const CPC_UNAVAILABLE: nat := 5
  const LPAR_DATA_SENT: nat := 6
  const CPC_DATA_SENT: nat := 7

  const MAXRESULTSIZE: nat := 255

  /** `snprintf` into the result buffer: at most 254 characters are kept. */
  function Truncated(s: string): string {
    if |s| < MAXRESULTSIZE then s else s[..MAXRESULTSIZE - 1]
  }

  function Group1(cu: Utilization): seq<Word32>
    requires cu.Valid()
  {
    [cu.timestamp, cu.words[CPC_PATH_BUSY], cu.words[LPAR_PATH_BUSY]]
  }

  function Group2(cu: Utilization): seq<Word32>
    requires cu.Valid()
  {
    [cu.timestamp, cu.words[CPC_BUS_CYCLES], cu.words[CPC_WORK_UNITS], cu.words[CPC_DATA_READ],
     cu.words[CPC_DATA_WRITTEN], cu.words[LPAR_WORK_UNITS], cu.words[LPAR_DATA_READ], cu.words[LPAR_DATA_WRITTEN]]
  }

  function Group3(cu: Utilization): seq<Word32>
    requires cu.Valid()
  {
    [cu.timestamp, cu.words[CPC_DATA_SENT], cu.words[CPC_MSG_SENT], cu.words[CPC_UNAVAILABLE], cu.words[LPAR_DATA_SENT],
     cu.words[LPAR_MSG_SENT], cu.words[LPAR_UNAVAILABLE], cu.words[LPAR_UNSUCCESSFUL]]
  }

  function CueText(group: char, cuiv: Word8, xs: seq<Word32>): string {
    [group] + ":" + Digits(cuiv, 16) + Fields(xs)
  }

  function StringifyUtilization(cu: Utilization): string
    requires cu.Valid()
  {
    match cu.cmg
    case 1 => Truncated(CueText('1', cu.cuiv, Group1(cu)))
    case 2 => Truncated(CueText('2', cu.cuiv, Group2(cu)))
    case 3 => Truncated(CueText('3', cu.cuiv, Group3(cu)))
    case _ => Truncated("0")
  }

  /** `atoi`. */
  function Atoi(s: string): int {
    match GetNumber(s, 10)
    case None => 0
    case Some(r) => ToInt32(r.0)
  }

  /** The values `sscanf` finds in a record, the validity byte first. */
  function ScanRecord(s: string, n: nat): Option<(Word8, seq<Word32>)> {
    match GetNumber(s, 16)
    case None => None
    case Some(r) => Some((r.0 % 0x100, ScanFields(r.1, n)))
  }

  /** Stores the values that were found into the words listed in `order`. */
  function Assign(words: seq<Word32>, order: seq<nat>, xs: seq<Word32>): (r: seq<Word32>)
    requires forall k :: 0 <= k < |order| ==> order[k] < |words|
    ensures |r| == |words|
    decreases |order|
  {
    if order == [] || xs == [] then words else Assign(words[order[0] := xs[0]], order[1..], xs[1..])
  }

  function Filled(cu: Utilization, record: Option<(Word8, seq<Word32>)>, order: seq<nat>): (r: Utilization)
    requires cu.Valid() && forall k :: 0 <= k < |order| ==> order[k] < WORDS
    ensures r.Valid()
  {
    match record
    case None => cu
    case Some((cuiv, xs)) =>
      if xs == [] then cu.(cuiv := cuiv)
      else cu.(cuiv := cuiv, timestamp := xs[0], words := Assign(cu.words, order, xs[1..]))
  }

  /** The caller's struct after parsing, and whether it is returned. */
  function DestringifyUtilization(text: string, was: Utilization): (r: (bool, Utilization))
    requires was.Valid()
    ensures r.1.Valid()
  {
    if |text| < 3 then (false, was)
    else
      var cu := was.(cmg := Atoi(text));
      match cu.cmg
      case 1 => (true, Filled(cu, ScanRecord(text[2..], 3), SCANNED_1))
      case 2 => (true, Filled(cu, ScanRecord(text[2..], 8), SCANNED_2))
      case 3 => (true, Filled(cu, ScanRecord(text[2..], 8), SCANNED_3))
      case _ => (false, cu)
  }

  // The words behind the `%u` arguments after the timestamp, in the order of the calls of `sscanf`.
  const SCANNED_1: seq<nat> := [CPC_PATH_BUSY, LPAR_PATH_BUSY]
  const SCANNED_2: seq<nat> := [CPC_BUS_CYCLES, CPC_WORK_UNITS, CPC_DATA_READ, CPC_DATA_WRITTEN, LPAR_WORK_UNITS,
                                LPAR_DATA_READ, LPAR_DATA_WRITTEN]
  const SCANNED_3: seq<nat> := [CPC_DATA_SENT, CPC_MSG_SENT, CPC_UNAVAILABLE, LPAR_DATA_SENT, LPAR_MSG_SENT,
                                LPAR_UNAVAILABLE, LPAR_UNSUCCESSFUL]

  lemma CueTextLength(group: char, cuiv: Word8, xs: seq<Word32>)
    requires |xs| <= 8 && group != SEPARATOR
    ensures |CueText(group, cuiv, xs)| <= 92
    ensures SEPARATOR !in CueText(group, cuiv, xs)
  {
    TwoDigits(cuiv);
    AllDigits(cuiv, 16);
    assert !IsDigit(SEPARATOR, 16);
    FieldsLength(xs);
  }

  lemma ScanRecordOf(cuiv: Word8, xs: seq<Word32>, n: nat, t: string)
    requires Ends(t) && |xs| <= n
    ensures ScanRecord(Digits(cuiv, 16) + (Fields(xs) + t), n) == Some((cuiv, xs))
  {
    var rest := Fields(xs) + t;
    RecordStart(cuiv, xs, t);
    ScanFieldsOf(xs, n, t);
    RecordSteps(Digits(cuiv, 16) + rest, n, cuiv, rest, xs);
  }

  lemma RecordStart(cuiv: Word8, xs: seq<Word32>, t: string)
    requires Ends(t)
    ensures GetNumber(Digits(cuiv, 16) + (Fields(xs) + t), 16) == Some((cuiv, Fields(xs) + t))
  {
    FieldsStart(xs, t);
    GetNumberOf(cuiv, 16, Fields(xs) + t);
  }

  lemma RecordSteps(s: string, n: nat, cuiv: Word8, rest: string, xs: seq<Word32>)
    requires GetNumber(s, 16) == Some((cuiv, rest)) && ScanFields(rest, n) == xs
    ensures ScanRecord(s, n) == Some((cuiv, xs))
  {
  }

  /** What the parser meets in the text of a record of group `d`. */
  lemma CueTextParsed(d: nat, cuiv: Word8, xs: seq<Word32>, n: nat, t: string)
    requires d < 10 && |xs| <= 8 && |xs| <= n && Ends(t)
    ensures var text := Truncated(CueText(DigitChar(d), cuiv, xs)) + t;
      |text| >= 3 && Atoi(text) == d && ScanRecord(text[2..], n) == Some((cuiv, xs))
  {
    var text := CueText(DigitChar(d), cuiv, xs) + t;
    CueTextLength(DigitChar(d), cuiv, xs);
    assert text[2..] == Digits(cuiv, 16) + (Fields(xs) + t);
    ScanRecordOf(cuiv, xs, n, t);
    AtoiOf(text, d);
  }

  lemma AtoiOf(s: string, d: nat)
    requires |s| >= 2 && d < 10 && s[0] == DigitChar(d) && !IsDigit(s[1], 10)
    ensures Atoi(s) == d
  {
    assert s == [DigitChar(d)] + s[1..];
    ReadOne(0, d, s[1..], 10);
  }

  /** The counters of a group are words 1 to `Counters`. */
  function Counters(cmg: int): nat {
    if cmg == 1 then 2 else 7
  }

  /** The words of `was` with the counters of `cu` in their places. */
  function Merged(cu: Utilization, was: Utilization): seq<Word32>
    requires cu.Valid() && was.Valid()
  {
    var n := Counters(cu.cmg) + 1;
    [was.words[0]] + cu.words[1..n] + was.words[n..]
  }

  lemma MergedAt(cu: Utilization, was: Utilization, k: nat)
    requires cu.Valid() && was.Valid() && k < WORDS
    ensures |Merged(cu, was)| == WORDS
    ensures Merged(cu, was)[k] == if 1 <= k <= Counters(cu.cmg) then cu.words[k] else was.words[k]
  {
  }

  /** `want` holds `xs` at the places listed in `order`, and is `words` elsewhere. */
  ghost predicate Places(words: seq<Word32>, order: seq<nat>, xs: seq<Word32>, want: seq<Word32>) {
    && |order| == |xs| && |want| == |words|
    && (forall k :: 0 <= k < |order| ==> order[k] < |words| && want[order[k]] == xs[k])
    && (forall j :: 0 <= j < |words| && want[j] != words[j] ==> j in order)
  }

  lemma {:induction false} Assigned(words: seq<Word32>, order: seq<nat>, xs: seq<Word32>, want: seq<Word32>)
    requires Places(words, order, xs, want)
    ensures Assign(words, order, xs) == want
    decreases |order|
  {
    if order != [] {
      assert order == [order[0]] + order[1..];
      Assigned(words[order[0] := xs[0]], order[1..], xs[1..], want);
    }
  }

  lemma Group1Assigned(cu: Utilization, was: Utilization)
    requires cu.Valid() && was.Valid() && cu.cmg == 1
    ensures Assign(was.words, SCANNED_1, Group1(cu)[1..]) == Merged(cu, was)
  {
    var want, xs := Merged(cu, was), Group1(cu)[1..];
    forall k | 0 <= k < WORDS ensures |want| == WORDS && want[k] == if 1 <= k <= 2 then cu.words[k] else was.words[k] {
      MergedAt(cu, was, k);
    }
    assert SCANNED_1[0] == 1 && SCANNED_1[1] == 2;
    Assigned(was.words, SCANNED_1, xs, want);
  }

  /** The counters of groups 2 and 3, as each prints and scans them, at their places. */
  lemma CountersPlaced(cu: Utilization, was: Utilization, order: seq<nat>, xs: seq<Word32>)
    requires cu.Valid() && was.Valid() && cu.cmg in {2, 3} && |order| == |xs| == 7
    requires forall k :: 0 <= k < 7 ==> 1 <= order[k] < WORDS && xs[k] == cu.words[order[k]]
    requires forall j :: 1 <= j < WORDS ==> j in order
    ensures Assign(was.words, order, xs) == Merged(cu, was)
  {
    var want := Merged(cu, was);
    forall k | 0 <= k < WORDS ensures |want| == WORDS && want[k] == if k == 0 then was.words[0] else cu.words[k] {
      MergedAt(cu, was, k);
    }
    Assigned(was.words, order, xs, want);
  }

  lemma Group2Assigned(cu: Utilization, was: Utilization)
    requires cu.Valid() && was.Valid() && cu.cmg == 2
    ensures Assign(was.words, SCANNED_2, Group2(cu)[1..]) == Merged(cu, was)
  {
    var order := SCANNED_2;
    assert order[0] == 1 && order[1] == 2 && order[2] == 6 && order[3] == 4 && order[4] == 3 && order[5] == 7
      && order[6] == 5;
    CountersPlaced(cu, was, order, Group2(cu)[1..]);
  }

  lemma Group3Assigned(cu: Utilization, was: Utilization)
    requires cu.Valid() && was.Valid() && cu.cmg == 3
    ensures Assign(was.words, SCANNED_3, Group3(cu)[1..]) == Merged(cu, was)
  {
    var order := SCANNED_3;
    assert order[0] == 7 && order[1] == 2 && order[2] == 5 && order[3] == 6 && order[4] == 1 && order[5] == 4
      && order[6] == 3;
    CountersPlaced(cu, was, order, Group3(cu)[1..]);
  }

  lemma FilledWith(was: Utilization, cuiv: Word8, xs: seq<Word32>, order: seq<nat>, words: seq<Word32>)
    requires was.Valid() && xs != [] && forall k :: 0 <= k < |order| ==> order[k] < WORDS
    requires Assign(was.words, order, xs[1..]) == words
    ensures Filled(was, Some((cuiv, xs)), order) == was.(cuiv := cuiv, timestamp := xs[0], words := words)
  {
  }

  lemma Group1RoundTrip(cu: Utilization, was: Utilization, t: string)
    requires cu.Valid() && was.Valid() && cu.cmg == 1 && Ends(t)
    ensures DestringifyUtilization(StringifyUtilization(cu) + t, was) == (true, cu.(words := Merged(cu, was)))
  {
    CueTextParsed(1, cu.cuiv, Group1(cu), 3, t);
    Group1Assigned(cu, was);
    FilledWith(was.(cmg := 1), cu.cuiv, Group1(cu), SCANNED_1, Merged(cu, was));
  }

  lemma Group2RoundTrip(cu: Utilization, was: Utilization, t: string)
    requires cu.Valid() && was.Valid() && cu.cmg == 2 && Ends(t)
    ensures DestringifyUtilization(StringifyUtilization(cu) + t, was) == (true, cu.(words := Merged(cu, was)))
  {
    CueTextParsed(2, cu.cuiv, Group2(cu), 8, t);
    Group2Assigned(cu, was);
    FilledWith(was.(cmg := 2), cu.cuiv, Group2(cu), SCANNED_2, Merged(cu, was));
  }

  lemma Group3RoundTrip(cu: Utilization, was: Utilization, t: string)
    requires cu.Valid() && was.Valid() && cu.cmg == 3 && Ends(t)
    ensures DestringifyUtilization(StringifyUtilization(cu) + t, was) == (true, cu.(words := Merged(cu, was)))
  {
    CueTextParsed(3, cu.cuiv, Group3(cu), 8, t);
    Group3Assigned(cu, was);
    FilledWith(was.(cmg := 3), cu.cuiv, Group3(cu), SCANNED_3, Merged(cu, was));
  }

  /** Parsing a printed record, possibly followed by the separator and more, recovers group, validity byte, timestamp
      and every counter, and touches nothing else. */
  lemma UtilizationRoundTrip(cu: Utilization, was: Utilization, t: string)
    requires cu.Valid() && was.Valid() && 1 <= cu.cmg <= 3 && Ends(t)
    ensures DestringifyUtilization(StringifyUtilization(cu) + t, was) == (true, cu.(words := Merged(cu, was)))
  {
    if cu.cmg == 1 {
      Group1RoundTrip(cu, was, t);
    } else if cu.cmg == 2 {
      Group2RoundTrip(cu, was, t);
    } else {
      Group3RoundTrip(cu, was, t);
    }
  }

  /** The limit of 255 never cuts a record, and none contains the separator. */
  lemma UtilizationText(cu: Utilization)
    requires cu.Valid()
    ensures |StringifyUtilization(cu)| <= 92 && SEPARATOR !in StringifyUtilization(cu)
  {
    CueTextLength('1', cu.cuiv, Group1(cu));
    CueTextLength('2', cu.cuiv, Group2(cu));
    CueTextLength('3', cu.cuiv, Group3(cu));
  }

  // ----- other texts -----

  /** The counters of a group in the order of their output. */
  function Output(cmg: int): seq<nat> {
    if cmg == 1 then SCANNED_1 else if cmg == 2 then SCANNED_2 else SCANNED_3
  }

  /** The values behind the group and the validity byte. */
  function Values(cu: Utilization): seq<Word32>
    requires cu.Valid()
  {
    if cu.cmg == 1 then Group1(cu) else if cu.cmg == 2 then Group2(cu) else Group3(cu)
  }

  lemma ValuesInOutput(cu: Utilization)
    requires cu.Valid() && 1 <= cu.cmg <= 3
    ensures var order := Output(cu.cmg);
      |Values(cu)| == |order| + 1 && forall i :: 0 <= i < |order| ==> Values(cu)[i + 1] == cu.words[order[i]]
  {
  }

  lemma {:induction false} AssignPrefix(words: seq<Word32>, order: seq<nat>, xs: seq<Word32>)
    requires |xs| <= |order| && forall k :: 0 <= k < |order| ==> order[k] < |words|
    ensures Assign(words, order, xs) == Assign(words, order[..|xs|], xs)
    decreases |xs|
  {
    if xs != [] {
      AssignPrefix(words[order[0] := xs[0]], order[1..], xs[1..]);
      assert order[..|xs|][1..] == order[1..][..|xs| - 1];
    }
  }

  /** A record that breaks off sets what it has: the validity byte, the timestamp, and the first counters. */
  lemma BrokenOff(cu: Utilization, was: Utilization, n: nat)
    requires cu.Valid() && was.Valid() && 1 <= cu.cmg <= 3 && n <= |Values(cu)|
    ensures var order := Output(cu.cmg);
      var (ok, now) := DestringifyUtilization(CueText(DigitChar(cu.cmg), cu.cuiv, Values(cu)[..n]), was);
      && ok && now.cmg == cu.cmg && now.cuiv == cu.cuiv
      && now.timestamp == (if n > 0 then cu.timestamp else was.timestamp)
      && n <= |order| + 1 && forall k :: 0 <= k < WORDS ==>
        now.words[k] == if n > 0 && k in order[..n - 1] then cu.words[k] else was.words[k]
  {
    BrokenRecord(cu, was, Values(cu)[..n]);
    if n > 0 {
      FirstAssigned(cu, was, n);
    }
  }

  lemma BrokenRecord(cu: Utilization, was: Utilization, xs: seq<Word32>)
    requires cu.Valid() && was.Valid() && 1 <= cu.cmg <= 3 && |xs| <= |Values(cu)|
    ensures DestringifyUtilization(CueText(DigitChar(cu.cmg), cu.cuiv, xs), was)
      == (true, Filled(was.(cmg := cu.cmg), Some((cu.cuiv, xs)), Output(cu.cmg)))
  {
    CueTextLength(DigitChar(cu.cmg), cu.cuiv, xs);
    CueTextParsed(cu.cmg, cu.cuiv, xs, |Values(cu)|, "");
    assert CueText(DigitChar(cu.cmg), cu.cuiv, xs) + "" == CueText(DigitChar(cu.cmg), cu.cuiv, xs);
  }

  lemma FirstAssigned(cu: Utilization, was: Utilization, n: nat)
    requires cu.Valid() && was.Valid() && 1 <= cu.cmg <= 3 && 0 < n <= |Values(cu)|
    ensures var order := Output(cu.cmg); n - 1 <= |order| && forall k :: 0 <= k < WORDS ==>
      Assign(was.words, order, Values(cu)[..n][1..])[k] == if k in order[..n - 1] then cu.words[k] else was.words[k]
  {
    var xs, order := Values(cu)[..n][1..], Output(cu.cmg);
    ValuesInOutput(cu);
    var want := seq(WORDS, k requires 0 <= k < WORDS => if k in order[..n - 1] then cu.words[k] else was.words[k]);
    AssignPrefix(was.words, order, xs);
    Assigned(was.words, order[..n - 1], xs, want);
  }

  /** Texts of less than three characters and other groups are refused; without a validity byte nothing but the group
      is set. */
  lemma Refused(text: string, was: Utilization, wasCmc: Characteristics)
    requires was.Valid() && wasCmc.Valid()
    ensures |text| < 3 ==> DestringifyUtilization(text, was) == (false, was)
    ensures |text| < 3 ==> DestringifyCharacteristics(text, wasCmc) == (false, wasCmc)
    ensures |text| >= 3 ==> DestringifyUtilization(text, was).0 == (1 <= Atoi(text) <= 3)
    ensures |text| >= 3 ==> DestringifyCharacteristics(text, wasCmc).0 == (2 <= Atoi(text) <= 3)
    ensures |text| >= 3 && !(1 <= Atoi(text) <= 3) ==>
      DestringifyUtilization(text, was).1 == was.(cmg := Atoi(text))
    ensures |text| >= 3 && !(2 <= Atoi(text) <= 3) ==>
      DestringifyCharacteristics(text, wasCmc).1 == wasCmc.(cmg := Atoi(text))
    ensures |text| >= 3 && 1 <= Atoi(text) <= 3 && ScanRecord(text[2..], 0) == None ==>
      DestringifyUtilization(text, was).1 == was.(cmg := Atoi(text))
  {
  }

  /** Without digits nothing is read: `atoi` gives 0, a list ends, and a record sets no field. */
  lemma NothingRead(s: string, n: nat)
    requires s == "" || !('0' <= s[0] <= '9')
    ensures Atoi(s) == 0 && ScanFields(":" + s, n) == [] && ScanList(s, n + 1) == []
    ensures s == "" || !('a' <= s[0] <= 'f' || 'A' <= s[0] <= 'F') ==> ScanRecord(s, n) == None
  {
    assert (":" + s)[1..] == s;
  }

  /** Numbers that are too large lose their upper bits. */
  lemma UpperBitsLost(x: nat, n: nat)
    ensures Atoi(Digits(x, 10)) == ToInt32(x)
    ensures ScanFields(":" + Digits(x, 10), n + 1) == [x % 0x1_0000_0000]
    ensures ScanRecord(Digits(x, 16), n) == Some((x % 0x100, []))
  {
    GetNumberOf(x, 10, "");
    GetNumberOf(x, 16, "");
    assert Digits(x, 10) + "" == Digits(x, 10) && Digits(x, 16) + "" == Digits(x, 16);
    assert (":" + Digits(x, 10))[1..] == Digits(x, 10);
  }

  // ----- how records look -----

  lemma FieldsText(x: Word32, xs: seq<Word32>)
    ensures Fields([x] + xs) == ":" + Digits(x, 10) + Fields(xs)
  {
    assert ([x] + xs)[1..] == xs;
  }

  lemma DigitsText()
    ensures Digits(0, 10) == "0" && Digits(1905, 10) == "1905" && Digits(0xAF, 16) == "af"
  {
    assert Digits(190, 10) == Digits(19, 10) + "0" && Digits(19, 10) == "1" + "9";
  }

  /** Group, validity and timestamp, then the counters of the group in the order of their output. */
  lemma UtilizationLayout(cu: Utilization)
    requires |cu.words| == 8
    ensures var (w, head) := (cu.words, Digits(cu.cuiv, 16));
      StringifyUtilization(cu) == match cu.cmg
        case 1 => "1:" + head + Fields([cu.timestamp, w[1], w[2]])
        case 2 => "2:" + head + Fields([cu.timestamp, w[1], w[2], w[6], w[4], w[3], w[7], w[5]])
        case 3 => "3:" + head + Fields([cu.timestamp, w[7], w[2], w[5], w[6], w[1], w[4], w[3]])
        case _ => "0"
  {
    CueTextLength('1', cu.cuiv, Group1(cu));
    CueTextLength('2', cu.cuiv, Group2(cu));
    CueTextLength('3', cu.cuiv, Group3(cu));
  }

  /** Group and unit sizes; joined with the first record by an exclamation mark. */
  lemma CharacteristicsLayout(cmc: Characteristics, cue: string)
    requires |cmc.words| == 5
    ensures var w := cmc.words;
      Joined(cue, StringifyCharacteristics(cmc)) == cue + "!" + match cmc.cmg
        case 2 => "2" + Fields([w[4], w[0], w[1], w[2], w[3]])
        case 3 => "3" + Fields([w[0], w[1], w[2], w[3]])
        case _ => "0"
  {
    FieldsLength(Sizes2(cmc));
    FieldsLength(Sizes3(cmc));
  }

  lemma TruncatedText(s: string)
    ensures Truncated(s) <= s && |Truncated(s)| == if |s| <= 254 then |s| else 254
  {
  }

  // ----- measurement characteristics -----

  /** A `zChannelMeasurementCharacteristics`; `words` are the five words of the union of the two blocks. */
  datatype Characteristics = Characteristics(cmg: int, words: seq<Word32>) {
    predicate Valid() { |words| == CHARACTERISTICS }
  }

  const CHARACTERISTICS: nat := 5

  // The words of zCmcBlock2.
  const MAX_BUS_CYCLES: nat := 0
  const MAX_WORK_UNITS: nat := 1
  const MAX_WRITE_UNITS: nat := 2
  const MAX_READ_UNITS: nat := 3
  const DATA_UNIT_SIZE: nat := 4
  // The words of zCmcBlock3.
  const LPAR_DATA_UNIT_SIZE: nat := 0
  const CPC_DATA_UNIT_SIZE: nat := 1
  const MSG_UNIT_SIZE: nat := 2
  const CPC_MSG_UNIT_SIZE: nat := 3

  function Sizes2(cmc: Characteristics): seq<Word32>
    requires cmc.Valid()
  {
    [cmc.words[DATA_UNIT_SIZE], cmc.words[MAX_BUS_CYCLES], cmc.words[MAX_WORK_UNITS], cmc.words[MAX_WRITE_UNITS],
     cmc.words[MAX_READ_UNITS]]
  }

  function Sizes3(cmc: Characteristics): seq<Word32>
    requires cmc.Valid()
  {
    [cmc.words[LPAR_DATA_UNIT_SIZE], cmc.words[CPC_DATA_UNIT_SIZE], cmc.words[MSG_UNIT_SIZE],
     cmc.words[CPC_MSG_UNIT_SIZE]]
  }

  function StringifyCharacteristics(cmc: Characteristics): string
    requires cmc.Valid()
  {
    match cmc.cmg
    case 2 => Truncated("2" + Fields(Sizes2(cmc)))
    case 3 => Truncated("3" + Fields(Sizes3(cmc)))
    case _ => Truncated("0")
  }

  /** `sscanf` of `%u:%u:...`. */
  function ScanList(s: string, n: nat): seq<Word32>
    requires n > 0
  {
    match GetNumber(s, 10)
    case None => []
    case Some(r) => [r.0 % TWO_32] + ScanFields(r.1, n - 1)
  }

  const SCANNED_SIZES_2: seq<nat> := [DATA_UNIT_SIZE, MAX_BUS_CYCLES, MAX_WORK_UNITS, MAX_WRITE_UNITS, MAX_READ_UNITS]
  const SCANNED_SIZES_3: seq<nat> := [LPAR_DATA_UNIT_SIZE, CPC_DATA_UNIT_SIZE, MSG_UNIT_SIZE, CPC_MSG_UNIT_SIZE]

  function DestringifyCharacteristics(text: string, was: Characteristics): (r: (bool, Characteristics))
    requires was.Valid()
    ensures r.1.Valid()
  {
    if |text| < 3 then (false, was)
    else
      var cmg := Atoi(text);
      match cmg
      case 2 => (true, Characteristics(cmg, Assign(was.words, SCANNED_SIZES_2, ScanList(text[2..], 5))))
      case 3 => (true, Characteristics(cmg, Assign(was.words, SCANNED_SIZES_3, ScanList(text[2..], 4))))
      case _ => (false, was.(cmg := cmg))
  }

  lemma ListParsed(d: nat, xs: seq<Word32>)
    requires d < 10 && 0 < |xs| <= 5
    ensures var text := Truncated([DigitChar(d)] + Fields(xs));
      |text| >= 3 && Atoi(text) == d && ScanList(text[2..], |xs|) == xs
  {
    var text := [DigitChar(d)] + Fields(xs);
    FieldsLength(xs);
    FieldsSplit(xs, "");
    assert Fields(xs) + "" == Fields(xs) && Fields(xs[1..]) + "" == Fields(xs[1..]);
    assert text[1..] == Fields(xs) && text[2..] == Digits(xs[0], 10) + Fields(xs[1..]);
    ScanFieldsOf(xs, |xs|, "");
    AtoiOf(text, d);
  }

  /** Group 3 has one word less. */
  function MergedSizes(cmc: Characteristics, was: Characteristics): seq<Word32>
    requires cmc.Valid() && was.Valid()
  {
    if cmc.cmg == 2 then cmc.words else cmc.words[..4] + was.words[4..]
  }

  lemma CharacteristicsRoundTrip(cmc: Characteristics, was: Characteristics)
    requires cmc.Valid() && was.Valid() && 2 <= cmc.cmg <= 3
    ensures DestringifyCharacteristics(StringifyCharacteristics(cmc), was)
      == (true, cmc.(words := MergedSizes(cmc, was)))
  {
    if cmc.cmg == 2 {
      ListParsed(2, Sizes2(cmc));
      Sizes2Assigned(cmc, was);
    } else {
      ListParsed(3, Sizes3(cmc));
      Sizes3Assigned(cmc, was);
    }
  }

  lemma Sizes2Assigned(cmc: Characteristics, was: Characteristics)
    requires cmc.Valid() && was.Valid()
    ensures Assign(was.words, SCANNED_SIZES_2, Sizes2(cmc)) == cmc.words
  {
    var order := SCANNED_SIZES_2;
    assert order[0] == 4 && order[1] == 0 && order[2] == 1 && order[3] == 2 && order[4] == 3;
    Assigned(was.words, order, Sizes2(cmc), cmc.words);
  }

  lemma Sizes3Assigned(cmc: Characteristics, was: Characteristics)
    requires cmc.Valid() && was.Valid()
    ensures Assign(was.words, SCANNED_SIZES_3, Sizes3(cmc)) == cmc.words[..4] + was.words[4..]
  {
    var order := SCANNED_SIZES_3;
    assert order[0] == 0 && order[1] == 1 && order[2] == 2 && order[3] == 3;
    Assigned(was.words, order, Sizes3(cmc), cmc.words[..4] + was.words[4..]);
  }

  // ----- the metric block -----

  /** The string that `sendMetric` puts into the metric value. */
  function Joined(cue: string, cmc: string): string {
    cue + [SEPARATOR] + cmc
  }

  /** `strstr` for the separator. */
  function SeparatorIn(s: string): (i: nat)
    ensures i <= |s| && SEPARATOR !in s[..i] && (i < |s| ==> s[i] == SEPARATOR)
  {
    if s == "" || s[0] == SEPARATOR then 0 else 1 + SeparatorIn(s[1..])
  }

  function ParsedBlock(block: string, cu: Utilization, cmc: Characteristics): (Utilization, Characteristics)
    requires cu.Valid() && cmc.Valid()
  {
    var sep := SeparatorIn(block);
    if sep == |block| then (cu, cmc)
    else (DestringifyUtilization(block, cu).1, DestringifyCharacteristics(block[sep + 1..], cmc).1)
  }

  lemma {:induction false} SplitsWhereJoined(cue: string, cmc: string)
    requires SEPARATOR !in cue
    ensures SeparatorIn(Joined(cue, cmc)) == |cue| && Joined(cue, cmc)[|cue| + 1..] == cmc
  {
    if cue != "" {
      SplitsWhereJoined(cue[1..], cmc);
      assert Joined(cue, cmc)[1..] == Joined(cue[1..], cmc);
    }
  }

  /** Both records survive being joined and split; characteristics of other groups print as "0", and parsing them
      changes nothing. */
  lemma MetricBlockRoundTrip(cu: Utilization, cmc: Characteristics, wasCu: Utilization, wasCmc: Characteristics)
    requires cu.Valid() && cmc.Valid() && wasCu.Valid() && wasCmc.Valid() && 1 <= cu.cmg <= 3
    ensures ParsedBlock(Joined(StringifyUtilization(cu), StringifyCharacteristics(cmc)), wasCu, wasCmc)
      == (cu.(words := Merged(cu, wasCu)),
          if 2 <= cmc.cmg <= 3 then cmc.(words := MergedSizes(cmc, wasCmc)) else wasCmc)
  {
    var cue, text := StringifyUtilization(cu), StringifyCharacteristics(cmc);
    UtilizationText(cu);
    SplitsWhereJoined(cue, text);
    assert Joined(cue, text) == cue + ([SEPARATOR] + text);
    UtilizationRoundTrip(cu, wasCu, [SEPARATOR] + text);
    if 2 <= cmc.cmg <= 3 {
      CharacteristicsRoundTrip(cmc, wasCmc);
    }
  }

  // ----- the structs of the caller -----

  class ChannelUtilization {
    var cmg: int
    var timestamp: Word32
    var cuiv: Word8
    var words: seq<Word32>

    ghost function Contents(): Utilization
      reads this
    {
      Utilization(cmg, timestamp, cuiv, words)
    }

    /** The fields change as `sscanf` finds them. */
    method Scan(s: string, n: nat, order: seq<nat>)
      requires Contents().Valid() && forall k :: 0 <= k < |order| ==> order[k] < WORDS
      modifies this
      ensures Contents() == Filled(old(Contents()), ScanRecord(s, n), order)
    {
      var record := ScanRecord(s, n);
      if record.Some? {
        cuiv := record.value.0;
        var xs := record.value.1;
        if xs != [] {
          timestamp := xs[0];
          words := Assign(words, order, xs[1..]);
        }
      }
    }

    /** `destringifyChannelUtilization`; `None` is a NULL text. */
    method Destringify(text: Option<string>) returns (ok: bool)
      requires Contents().Valid()
      modifies this
      ensures text.None? ==> !ok && Contents() == old(Contents())
      ensures text.Some? ==> (ok, Contents()) == DestringifyUtilization(text.value, old(Contents()))
    {
      ok := false;
      if text.None? || |text.value| < 3 {
        return;
      }
      cmg := Atoi(text.value);
      match cmg
      case 1 => Scan(text.value[2..], 3, SCANNED_1); ok := true;
      case 2 => Scan(text.value[2..], 8, SCANNED_2); ok := true;
      case 3 => Scan(text.value[2..], 8, SCANNED_3); ok := true;
      case _ =>
    }
  }

  class ChannelMeasurementCharacteristics {
    var cmg: int
    var words: seq<Word32>

    ghost function Contents(): Characteristics
      reads this
    {
      Characteristics(cmg, words)
    }

    method Destringify(text: Option<string>) returns (ok: bool)
      requires Contents().Valid()
      modifies this
      ensures text.None? ==> !ok && Contents() == old(Contents())
      ensures text.Some? ==> (ok, Contents()) == DestringifyCharacteristics(text.value, old(Contents()))
    {
      ok := false;
      if text.None? || |text.value| < 3 {
        return;
      }
      cmg := Atoi(text.value);
      match cmg
      case 2 => words := Assign(words, SCANNED_SIZES_2, ScanList(text.value[2..], 5)); ok := true;
      case 3 => words := Assign(words, SCANNED_SIZES_3, ScanList(text.value[2..], 4)); ok := true;
      case _ =>
    }
  }

  method ParseMetricBlock(block: Option<string>, cu: ChannelUtilization, cmc: ChannelMeasurementCharacteristics)
    requires cu.Contents().Valid() && cmc.Contents().Valid()
    modifies cu, cmc
    ensures block.None? ==> cu.Contents() == old(cu.Contents()) && cmc.Contents() == old(cmc.Contents())
    ensures block.Some? ==>
      (cu.Contents(), cmc.Contents()) == ParsedBlock(block.value, old(cu.Contents()), old(cmc.Contents()))
  {
    if block.None? {
      return;
    }
    var sep := SeparatorIn(block.value);
    if sep == |block.value| {
      return;
    }
    var ok := cu.Destringify(block);
    ok := cmc.Destringify(Some(block.value[sep + 1..]));
  }

  // ----- timestamps -----

  /** The distance between two 24-bit timestamps, in 32-bit unsigned arithmetic. */
  function WrapSafe24Delta(now: Word32, old_: Word32): (d: Word32)
    ensures now < 0x100_0000 && old_ < 0x100_0000 ==> d < 0x100_0000 && (old_ + d) % 0x100_0000 == now
  {
    if now < old_ then (0x100_0000 - (old_ - now)) % TWO_32 else now - old_
  }
}
