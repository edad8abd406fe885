/** The local value repository: per metric a sorted array of resources, per resource a history (mreposl.c). */
module Repository {
  import opened CBytes
  import opened History

  datatype ResKey = ResKey(resource: CString, system: CString)

  datatype Entry<K, V> = Entry(key: K, value: V)

  type ResourceEntry = Entry<ResKey, Values>

  type MetricHdr = Entry<int, seq<ResourceEntry>>

  /** What the repository stands for: metric id -> resource -> history. */
  type Contents = map<int, map<ResKey, Values>>

  // ----- the order of resources -----

  function ResCmp(x: ResKey, y: ResKey): int {
    var state := MemCmp(x.resource + [0], y.resource + [0]);
    if state != 0 then state else MemCmp(x.system + [0], y.system + [0])
  }

  lemma ResCmpOrder(x: ResKey, y: ResKey)
    ensures ResCmp(x, y) == 0 <==> x == y
    ensures ResCmp(y, x) == -ResCmp(x, y)
  {
    MemCmpIsStrCmp(x.resource, y.resource);
    MemCmpIsStrCmp(x.system, y.system);
    MemCmpIsStrCmp(y.resource, x.resource);
    MemCmpIsStrCmp(y.system, x.system);
    StrCmpEqual(x.resource, y.resource);
    StrCmpEqual(x.system, y.system);
  }

  lemma StrCmpChain(s: CString, t: CString, u: CString)
    requires StrCmp(s, t) <= 0 && StrCmp(t, u) <= 0
    ensures StrCmp(s, u) <= 0 && (StrCmp(s, u) == 0 ==> StrCmp(s, t) == 0 && StrCmp(t, u) == 0)
  {
    StrCmpTransitive(s, t, u);
  }

  lemma ResCmpTransitive(x: ResKey, y: ResKey, z: ResKey)
    requires ResCmp(x, y) < 0 && ResCmp(y, z) < 0
    ensures ResCmp(x, z) < 0
  {
    MemCmpIsStrCmp(x.resource, y.resource);
    MemCmpIsStrCmp(y.resource, z.resource);
    MemCmpIsStrCmp(x.resource, z.resource);
    MemCmpIsStrCmp(x.system, y.system);
    MemCmpIsStrCmp(y.system, z.system);
    MemCmpIsStrCmp(x.system, z.system);
    StrCmpChain(x.resource, y.resource, z.resource);
    if StrCmp(x.resource, z.resource) == 0 {
      StrCmpChain(x.system, y.system, z.system);
    }
  }

  /** Resources alphabetically, and systems for equal resources. */
  lemma ResCmpIsAlphabetical(x: ResKey, y: ResKey)
    ensures ResCmp(x, y) < 0 <==>
      Before(x.resource, y.resource) || (x.resource == y.resource && Before(x.system, y.system))
  {
    MemCmpIsStrCmp(x.resource, y.resource);
    MemCmpIsStrCmp(x.system, y.system);
    StrCmpEqual(x.resource, y.resource);
    StrCmpIsAlphabetical(x.resource, y.resource);
    StrCmpIsAlphabetical(x.system, y.system);
  }

  ghost predicate Ascending(rs: seq<ResourceEntry>) {
    forall i, j :: 0 <= i < j < |rs| ==> ResCmp(rs[i].key, rs[j].key) < 0
  }

  lemma AscendingDistinct(rs: seq<ResourceEntry>)
    requires Ascending(rs)
    ensures Distinct(rs)
  {
    forall i, j | 0 <= i < j < |rs| ensures rs[i].key != rs[j].key {
      ResCmpOrder(rs[i].key, rs[j].key);
    }
  }

  // ----- arrays of entries as maps -----

  ghost predicate Distinct<K, V>(s: seq<Entry<K, V>>) {
    forall i, j :: 0 <= i < j < |s| ==> s[i].key != s[j].key
  }

  ghost predicate HasKey<K, V>(s: seq<Entry<K, V>>, k: K) {
    exists i :: 0 <= i < |s| && s[i].key == k
  }

  function Assoc<K, V>(s: seq<Entry<K, V>>): map<K, V> {
    if s == [] then map[] else Assoc(s[..|s| - 1])[s[|s| - 1].key := s[|s| - 1].value]
  }

  lemma {:induction false} AssocKeys<K, V>(s: seq<Entry<K, V>>, k: K)
    ensures k in Assoc(s) <==> HasKey(s, k)
  {
    if s != [] {
      var t := s[..|s| - 1];
      AssocKeys(t, k);
      assert HasKey(t, k) ==> HasKey(s, k) by {
        if HasKey(t, k) {
          var i :| 0 <= i < |t| && t[i].key == k;
          assert s[i].key == k;
        }
      }
      assert s[|s| - 1].key == k ==> HasKey(s, k);
      assert forall i :: 0 <= i < |s| && s[i].key == k ==> i == |s| - 1 || t[i].key == k;
    }
  }

  lemma {:induction false} AssocAt<K, V>(s: seq<Entry<K, V>>, i: nat)
    requires Distinct(s) && i < |s|
    ensures s[i].key in Assoc(s) && Assoc(s)[s[i].key] == s[i].value
  {
    if i < |s| - 1 {
      AssocAt(s[..|s| - 1], i);
    }
  }

  lemma {:induction false} AssocInsert<K, V>(s: seq<Entry<K, V>>, p: nat, e: Entry<K, V>)
    requires p <= |s| && !HasKey(s, e.key)
    ensures Assoc(s[..p] + [e] + s[p..]) == Assoc(s)[e.key := e.value]
  {
    var n := s[..p] + [e] + s[p..];
    if p == |s| {
      assert n[..|s|] == s;
    } else {
      var t := s[..|s| - 1];
      AssocInsert(t, p, e);
      assert n[..|s|] == t[..p] + [e] + t[p..];
    }
  }

  lemma {:induction false} AssocUpdate<K, V>(s: seq<Entry<K, V>>, p: nat, v: V)
    requires Distinct(s) && p < |s|
    ensures Assoc(s[p := Entry(s[p].key, v)]) == Assoc(s)[s[p].key := v]
  {
    var n := s[p := Entry(s[p].key, v)];
    var t := s[..|s| - 1];
    if p == |s| - 1 {
      assert n[..|s| - 1] == t;
    } else {
      AssocUpdate(t, p, v);
      assert n[..|s| - 1] == t[p := Entry(t[p].key, v)];
    }
  }

  /** Applying `f` to every value of the array applies it to every value of the map. */
  lemma {:induction false} AssocMapped<K, V, W>(s: seq<Entry<K, V>>, t: seq<Entry<K, W>>, f: V -> W)
    requires |s| == |t| && forall i :: 0 <= i < |s| ==> t[i] == Entry(s[i].key, f(s[i].value))
    ensures Assoc(t) == map k | k in Assoc(s) :: f(Assoc(s)[k])
  {
    if s != [] {
      AssocMapped(s[..|s| - 1], t[..|s| - 1], f);
    }
  }

  ghost predicate ValidHdrs(hs: seq<MetricHdr>) {
    Distinct(hs) && forall i :: 0 <= i < |hs| ==> Ascending(hs[i].value)
  }

  function ContentsOf(hs: seq<MetricHdr>): Contents {
    map id | id in Assoc(hs) :: Assoc(Assoc(hs)[id])
  }

  lemma InsertAscending(rs: seq<ResourceEntry>, p: nat, e: ResourceEntry)
    requires Ascending(rs) && p <= |rs|
    requires forall i :: 0 <= i < p ==> ResCmp(rs[i].key, e.key) < 0
    requires forall i :: p <= i < |rs| ==> ResCmp(rs[i].key, e.key) > 0
    ensures Ascending(rs[..p] + [e] + rs[p..]) && !HasKey(rs, e.key)
  {
    forall i | 0 <= i < |rs| ensures ResCmp(e.key, rs[i].key) == -ResCmp(rs[i].key, e.key) && rs[i].key != e.key {
      ResCmpOrder(rs[i].key, e.key);
    }
  }

  lemma UpdateHdr(hs: seq<MetricHdr>, p: nat, rs: seq<ResourceEntry>)
    requires ValidHdrs(hs) && p < |hs| && Ascending(rs)
    ensures ValidHdrs(hs[p := Entry(hs[p].key, rs)])
    ensures ContentsOf(hs[p := Entry(hs[p].key, rs)]) == ContentsOf(hs)[hs[p].key := Assoc(rs)]
  {
    AssocUpdate(hs, p, rs);
  }

  // ----- what the operations do to the contents -----

  function InnerMap(c: Contents, mid: int): map<ResKey, Values> {
    if mid in c then c[mid] else map[]
  }

  function HistoryOf(c: Contents, mid: int, k: ResKey): Values {
    if k in InnerMap(c, mid) then c[mid][k] else []
  }

  function KeyOf(mv: MetricValue): ResKey { ResKey(mv.resource, mv.systemId) }

  /** One value more in front of one history; all others unchanged. */
  function Consed(c: Contents, mv: MetricValue): Contents {
    c[mv.id := InnerMap(c, mv.id)[KeyOf(mv) := [mv] + HistoryOf(c, mv.id, KeyOf(mv))]]
  }

  function PruneValues(h: Values, cutoff: int): Values { h[..Boundary(h, cutoff + 1)] }

  function PruneInner(m: map<ResKey, Values>, cutoff: int): map<ResKey, Values> {
    map k | k in m :: PruneValues(m[k], cutoff)
  }

  function PruneContents(c: Contents, cutoff: int): Contents {
    map id | id in c :: PruneInner(c[id], cutoff)
  }

  const MIN_EXPIRATION_INTERVAL := 60
  const MAX_EXPIRATION_INTERVAL := 3600 * 24
  const DEFAULT_EXPIRATION_INTERVAL := 1200

  predicate AllowedExpiration(e: int) { MIN_EXPIRATION_INTERVAL <= e <= MAX_EXPIRATION_INTERVAL }

  /** The expiration interval for a configured one: the nearest that is allowed; 0 stands for a missing item. */
  function ClampExpiration(configured: int): (r: int)
    ensures AllowedExpiration(r) && (configured == 0 ==> r == DEFAULT_EXPIRATION_INTERVAL)
    ensures configured != 0 ==> forall e :: AllowedExpiration(e) ==> Abs(configured - r) <= Abs(configured - e)
  {
    var e := if configured == 0 then DEFAULT_EXPIRATION_INTERVAL else configured;
    if e < MIN_EXPIRATION_INTERVAL then MIN_EXPIRATION_INTERVAL
    else if e > MAX_EXPIRATION_INTERVAL then MAX_EXPIRATION_INTERVAL
    else e
  }

  /** A minute to a day; twenty minutes if nothing is configured. */
  lemma ExpirationLimits(configured: int)
    ensures 60 <= ClampExpiration(configured) <= 86400 && ClampExpiration(0) == 1200
    ensures 60 <= configured <= 86400 ==> ClampExpiration(configured) == configured
  {
    if 60 <= configured <= 86400 {
      assert AllowedExpiration(configured);
    }
  }

  datatype Store = Store(contents: Contents, nextPrune: int)

  function PruneStep(st: Store, now: int, exp: int): Store {
    if st.nextPrune < now then Store(PruneContents(st.contents, now - exp), now + exp / 2) else st
  }

  function AddStep(st: Store, mv: MetricValue, now: int, exp: int): Store {
    var p := PruneStep(st, now, exp);
    p.(contents := Consed(p.contents, mv))
  }

  // ----- counting -----

  function CountRes(rs: seq<ResourceEntry>): nat {
    if rs == [] then 0 else CountRes(rs[..|rs| - 1]) + |rs[|rs| - 1].value|
  }

  function CountHdrs(hs: seq<MetricHdr>): nat {
    if hs == [] then 0 else CountHdrs(hs[..|hs| - 1]) + CountRes(hs[|hs| - 1].value)
  }

  lemma OneMoreRes(rs: seq<ResourceEntry>, e: ResourceEntry)
    ensures CountRes(rs + [e]) == CountRes(rs) + |e.value|
  {
    assert (rs + [e])[..|rs|] == rs;
  }

  lemma OneMoreHdr(hs: seq<MetricHdr>, e: MetricHdr)
    ensures CountHdrs(hs + [e]) == CountHdrs(hs) + CountRes(e.value)
  {
    assert (hs + [e])[..|hs|] == hs;
  }

  function Sum(s: seq<int>): int {
    if s == [] then 0 else Sum(s[..|s| - 1]) + s[|s| - 1]
  }

  function CountTrue(s: seq<bool>): (n: nat)
    ensures n <= |s|
  {
    if s == [] then 0 else CountTrue(s[..|s| - 1]) + (if s[|s| - 1] then 1 else 0)
  }

  lemma CountNext(s: seq<bool>, i: nat)
    requires i < |s|
    ensures CountTrue(s[..i + 1]) == CountTrue(s[..i]) + if s[i] then 1 else 0
  {
    assert s[..i + 1][..i] == s[..i];
  }

  lemma {:induction false} CountOfPrefix(s: seq<bool>, c: nat)
    requires c <= |s| && forall i :: 0 <= i < |s| ==> (s[i] <==> i < c)
    ensures CountTrue(s) == c
  {
    if s != [] {
      CountOfPrefix(s[..|s| - 1], if c == |s| then c - 1 else c);
    }
  }

  lemma {:induction false} CountBeyond(s: seq<bool>, n: nat)
    requires n <= |s| && forall i :: 0 <= i < n ==> s[i]
    ensures n <= CountTrue(s) && forall j :: n <= j < |s| && s[j] ==> n < CountTrue(s)
  {
    if n < |s| {
      CountBeyond(s[..|s| - 1], n);
    } else if s != [] {
      CountBeyond(s[..|s| - 1], n - 1);
    }
  }

  function FirstFalse(s: seq<bool>): (c: nat)
    ensures c <= |s| && (forall i :: 0 <= i < c ==> s[i]) && (c < |s| ==> !s[c])
  {
    if s == [] || !s[0] then 0 else 1 + FirstFalse(s[1..])
  }

  /** As many leading elements as there are true ones are all true exactly if the true ones come first. */
  lemma {:induction false} CountedFirstIff(s: seq<bool>)
    ensures (forall i :: 0 <= i < CountTrue(s) ==> s[i]) <==> (forall i, j :: 0 <= i < j < |s| && s[j] ==> s[i])
  {
    if forall i, j :: 0 <= i < j < |s| && s[j] ==> s[i] {
      TrueFirst(s);
    }
    if forall i :: 0 <= i < CountTrue(s) ==> s[i] {
      CountBeyond(s, CountTrue(s));
    }
  }

  lemma {:induction false} TrueFirst(s: seq<bool>)
    requires forall i, j :: 0 <= i < j < |s| && s[j] ==> s[i]
    ensures CountTrue(s) == FirstFalse(s)
  {
    CountOfPrefix(s, FirstFalse(s));
  }

  // ----- array algorithms -----

  /** Binary search in the sorted resource array; `pos` is the place of `key` or where it belongs. */
  method SearchRes(rs: seq<ResourceEntry>, key: ResKey) returns (found: bool, pos: nat)
    requires Ascending(rs)
    ensures found <==> HasKey(rs, key)
    ensures found ==> pos < |rs| && rs[pos].key == key
    ensures !found ==> pos <= |rs|
    ensures !found ==> forall i :: 0 <= i < pos ==> ResCmp(rs[i].key, key) < 0
    ensures !found ==> forall i :: pos <= i < |rs| ==> ResCmp(rs[i].key, key) > 0
  {
    var left, right := 0, |rs| - 1;
    while left <= right
      invariant 0 <= left <= right + 1 <= |rs|
      invariant forall i :: 0 <= i < left ==> ResCmp(rs[i].key, key) < 0
      invariant forall i :: right < i < |rs| ==> ResCmp(rs[i].key, key) > 0
      decreases right - left
    {
      var cursor := (right + left) / 2;
      var dir := ResCmp(rs[cursor].key, key);
      ResCmpOrder(rs[cursor].key, key);
      if dir < 0 {
        forall i | 0 <= i < cursor ensures ResCmp(rs[i].key, key) < 0 {
          ResCmpTransitive(rs[i].key, rs[cursor].key, key);
        }
        left := cursor + 1;
      } else if dir > 0 {
        forall i | cursor < i < |rs| ensures ResCmp(rs[i].key, key) > 0 {
          ResCmpTransitive(key, rs[cursor].key, rs[i].key);
          ResCmpOrder(rs[i].key, key);
        }
        right := cursor - 1;
      } else {
        return true, cursor;
      }
    }
    found, pos := false, left;
    forall i | 0 <= i < |rs| ensures rs[i].key != key {
      ResCmpOrder(rs[i].key, key);
    }
  }

  method PruneResources(rs: seq<ResourceEntry>, cutoff: int) returns (kept: seq<ResourceEntry>, numPruned: nat)
    requires Ascending(rs)
    ensures Ascending(kept) && Assoc(kept) == PruneInner(Assoc(rs), cutoff)
    ensures numPruned == CountRes(rs) - CountRes(kept)
  {
    kept, numPruned := [], 0;
    var j := 0;
    while j < |rs|
      invariant 0 <= j == |kept| <= |rs|
      invariant forall i :: 0 <= i < j ==> kept[i] == Entry(rs[i].key, PruneValues(rs[i].value, cutoff))
      invariant numPruned == CountRes(rs[..j]) - CountRes(kept)
    {
      var h, n := PruneHistory(rs[j].value, cutoff);
      assert rs[..j + 1] == rs[..j] + [rs[j]];
      OneMoreRes(rs[..j], rs[j]);
      OneMoreRes(kept, Entry(rs[j].key, h));
      kept := kept + [Entry(rs[j].key, h)];
      numPruned := numPruned + n;
      j := j + 1;
    }
    assert rs[..j] == rs;
    PrunedResources(rs, kept, cutoff);
  }

  lemma PrunedResources(rs: seq<ResourceEntry>, kept: seq<ResourceEntry>, cutoff: int)
    requires Ascending(rs) && |kept| == |rs|
    requires forall i :: 0 <= i < |rs| ==> kept[i] == Entry(rs[i].key, PruneValues(rs[i].value, cutoff))
    ensures Ascending(kept) && Assoc(kept) == PruneInner(Assoc(rs), cutoff)
  {
    AssocMapped(rs, kept, h => PruneValues(h, cutoff));
  }

  ghost predicate PrunedHdr(h: MetricHdr, kept: MetricHdr, cutoff: int) {
    kept.key == h.key && Ascending(kept.value) && Assoc(kept.value) == PruneInner(Assoc(h.value), cutoff)
  }

  method PruneMetric(h: MetricHdr, cutoff: int) returns (kept: MetricHdr, numPruned: nat)
    requires Ascending(h.value)
    ensures PrunedHdr(h, kept, cutoff) && numPruned == CountRes(h.value) - CountRes(kept.value)
  {
    var rs, n := PruneResources(h.value, cutoff);
    kept, numPruned := Entry(h.key, rs), n;
  }

  method PruneHeader(hs: seq<MetricHdr>, cutoff: int) returns (kept: seq<MetricHdr>, numPruned: nat)
    requires ValidHdrs(hs)
    ensures ValidHdrs(kept) && ContentsOf(kept) == PruneContents(ContentsOf(hs), cutoff)
    ensures numPruned == CountHdrs(hs) - CountHdrs(kept)
  {
    kept, numPruned := [], 0;
    var i := 0;
    while i < |hs|
      invariant 0 <= i == |kept| <= |hs|
      invariant forall k :: 0 <= k < i ==> PrunedHdr(hs[k], kept[k], cutoff)
      invariant numPruned == CountHdrs(hs[..i]) - CountHdrs(kept)
    {
      var next, n := PruneMetric(hs[i], cutoff);
      assert hs[..i + 1] == hs[..i] + [hs[i]];
      OneMoreHdr(hs[..i], hs[i]);
      OneMoreHdr(kept, next);
      kept := kept + [next];
      numPruned := numPruned + n;
      i := i + 1;
    }
    assert hs[..i] == hs;
    PrunedContents(hs, kept, cutoff);
  }

  lemma PrunedContents(hs: seq<MetricHdr>, kept: seq<MetricHdr>, cutoff: int)
    requires ValidHdrs(hs) && |kept| == |hs|
    requires forall k :: 0 <= k < |hs| ==> PrunedHdr(hs[k], kept[k], cutoff)
    ensures ValidHdrs(kept) && ContentsOf(kept) == PruneContents(ContentsOf(hs), cutoff)
  {
    forall id ensures id in Assoc(kept) <==> id in Assoc(hs) {
      AssocKeys(kept, id);
      AssocKeys(hs, id);
      assert HasKey(kept, id) ==> HasKey(hs, id) by {
        if HasKey(kept, id) {
          var i :| 0 <= i < |kept| && kept[i].key == id;
          assert hs[i].key == id;
        }
      }
      assert HasKey(hs, id) ==> HasKey(kept, id) by {
        if HasKey(hs, id) {
          var i :| 0 <= i < |hs| && hs[i].key == id;
          assert kept[i].key == id;
        }
      }
    }
    forall id | id in Assoc(hs) ensures Assoc(Assoc(kept)[id]) == PruneInner(Assoc(Assoc(hs)[id]), cutoff) {
      AssocKeys(hs, id);
      var i :| 0 <= i < |hs| && hs[i].key == id;
      AssocAt(hs, i);
      assert kept[i].key == id;
      AssocAt(kept, i);
    }
  }
}
