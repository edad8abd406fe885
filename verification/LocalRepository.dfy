/** The repository object itself: every operation is proved against the maps of module Repository (mreposl.c). */
module LocalRepository {
  import opened CBytes
  import opened History
  import opened Repository

  function Labelled(vs: Values, k: ResKey): Values {
    seq(|vs|, i requires 0 <= i < |vs| => vs[i].(resource := k.resource, systemId := k.system))
  }

  predicate Matches(k: ResKey, resource: Option<CString>, system: Option<CString>) {
    (resource.Some? ==> k.resource == resource.value) && (system.Some? ==> k.system == system.value)
  }

  /** The resources a query addresses: those that agree with what it names. */
  ghost predicate Addressed(m: map<ResKey, Values>, resource: Option<CString>, system: Option<CString>, k: ResKey) {
    k in m && Matches(k, resource, system)
  }

  /** What a query that names only a resource or only a system needs: no resource that it does not address comes before
      one that it does.  Otherwise the array made for it has gaps, and its reader meets a NULL pointer. */
  ghost predicate Compact(m: map<ResKey, Values>, resource: Option<CString>, system: Option<CString>) {
    forall k, l :: k in m && l in m && ResCmp(k, l) < 0 && Matches(l, resource, system) ==> Matches(k, resource, system)
  }

  ghost predicate Retrievable(c: Contents, mid: int, from: Time, resource: Option<CString>, system: Option<CString>) {
    from < 0 || mid !in c || (resource.Some? <==> system.Some?) || Compact(c[mid], resource, system)
  }

  function MatchFlags(rs: seq<ResourceEntry>, resource: Option<CString>, system: Option<CString>): (s: seq<bool>)
    ensures |s| == |rs|
    ensures forall i :: 0 <= i < |rs| ==> s[i] == Matches(rs[i].key, resource, system)
  {
    seq(|rs|, i requires 0 <= i < |rs| => Matches(rs[i].key, resource, system))
  }

  /** The copy for a query that names only a resource or only a system: matching entries keep their places, the other
      places stay empty, and the number of matches is returned. */
  method PartialResources(rs: seq<ResourceEntry>, resource: Option<CString>, system: Option<CString>)
    returns (slots: seq<Option<ResourceEntry>>, num: nat)
    ensures |slots| == |rs| && num == CountTrue(MatchFlags(rs, resource, system))
    ensures forall i :: 0 <= i < |rs| ==> slots[i] == if Matches(rs[i].key, resource, system) then Some(rs[i]) else None
  {
    ghost var flags := MatchFlags(rs, resource, system);
    slots, num := seq(|rs|, _ => None), 0;
    var i := 0;
    while i < |rs|
      invariant 0 <= i <= |rs| == |slots| && num == CountTrue(flags[..i])
      invariant forall k :: 0 <= k < i ==> slots[k] == if flags[k] then Some(rs[k]) else None
      invariant forall k :: i <= k < |rs| ==> slots[k] == None
    {
      var k := rs[i].key;
      CountNext(flags, i);
      if resource.Some? {
        StrCmpEqual(k.resource, resource.value);
      }
      if system.Some? {
        StrCmpEqual(k.system, system.value);
      }
      if (resource.None? || StrCmp(k.resource, resource.value) == 0)
        && (system.None? || StrCmp(k.system, system.value) == 0) {
        num := num + 1;
        slots := slots[i := Some(rs[i])];
      }
      i := i + 1;
    }
    assert flags[..i] == flags;
  }

  /** The matching entries of a sorted array come first exactly if the query is compact. */
  lemma MatchesFirstIff(rs: seq<ResourceEntry>, resource: Option<CString>, system: Option<CString>)
    requires Ascending(rs)
    ensures var s := MatchFlags(rs, resource, system);
      (forall i, j :: 0 <= i < j < |s| && s[j] ==> s[i]) <==> Compact(Assoc(rs), resource, system)
  {
    var s := MatchFlags(rs, resource, system);
    AscendingDistinct(rs);
    if Compact(Assoc(rs), resource, system) {
      forall i, j | 0 <= i < j < |s| && s[j] ensures s[i] {
        AssocAt(rs, i);
        AssocAt(rs, j);
      }
    }
    if forall i, j :: 0 <= i < j < |s| && s[j] ==> s[i] {
      forall k, l | k in Assoc(rs) && l in Assoc(rs) && ResCmp(k, l) < 0 && Matches(l, resource, system)
        ensures Matches(k, resource, system)
      {
        var i := Position(rs, k);
        var j := Position(rs, l);
        NotBefore(rs, i, j);
        assert s[j];
      }
    }
  }

  lemma NotBefore(rs: seq<ResourceEntry>, i: nat, j: nat)
    requires Ascending(rs) && i < |rs| && j < |rs| && ResCmp(rs[i].key, rs[j].key) < 0
    ensures i < j
  {
    ResCmpOrder(rs[i].key, rs[j].key);
  }

  /** The places that its reader looks at are all filled exactly if the query is compact. */
  lemma PartialFilledIff(rs: seq<ResourceEntry>, resource: Option<CString>, system: Option<CString>)
    requires Ascending(rs)
    ensures (forall i :: 0 <= i < CountTrue(MatchFlags(rs, resource, system)) ==> Matches(rs[i].key, resource, system))
      <==> Compact(Assoc(rs), resource, system)
  {
    CountedFirstIff(MatchFlags(rs, resource, system));
    MatchesFirstIff(rs, resource, system);
  }

  /** Two resources of one system, of which the second is asked for: the only counted place is empty. */
  lemma GapBeforeMatch(system: CString, h: Values, g: Values)
    ensures var rs := [Entry(ResKey([97], system), h), Entry(ResKey([98], system), g)];
      && Ascending(rs) && CountTrue(MatchFlags(rs, Some([98]), None)) == 1
      && !Matches(rs[0].key, Some([98]), None) && Matches(rs[1].key, Some([98]), None)
  {
    var rs := [Entry(ResKey([97], system), h), Entry(ResKey([98], system), g)];
    var flags := MatchFlags(rs, Some([98]), None);
    assert flags == [false, true] && [false, true][..1] == [false] && [false][..0] == [];
    assert CountTrue([false]) == 0;
  }

  lemma Position(rs: seq<ResourceEntry>, k: ResKey) returns (i: nat)
    requires k in Assoc(rs)
    ensures i < |rs| && rs[i].key == k
  {
    AssocKeys(rs, k);
    i :| 0 <= i < |rs| && rs[i].key == k;
  }

  /** `rList` holds the addressed resources with their histories, in ascending order. */
  ghost predicate Serves(rList: seq<ResourceEntry>, m: map<ResKey, Values>, resource: Option<CString>,
                         system: Option<CString>) {
    && Ascending(rList)
    && (forall i :: 0 <= i < |rList| ==> rList[i].key in m && m[rList[i].key] == rList[i].value)
    && (forall k :: HasKey(rList, k) <==> Addressed(m, resource, system, k))
  }

  /** What is addressed: everything, the resources of a system, those of one name, or a single one. */
  lemma ServedResources(rList: seq<ResourceEntry>, m: map<ResKey, Values>, resource: Option<CString>,
                        system: Option<CString>, k: ResKey)
    requires Serves(rList, m, resource, system)
    ensures resource.None? && system.None? ==> (HasKey(rList, k) <==> k in m)
    ensures resource.None? && system.Some? ==> (HasKey(rList, k) <==> k in m && k.system == system.value)
    ensures resource.Some? && system.None? ==> (HasKey(rList, k) <==> k in m && k.resource == resource.value)
    ensures resource.Some? && system.Some? ==>
      (HasKey(rList, k) <==> k in m && k.resource == resource.value && k.system == system.value)
  {
    assert HasKey(rList, k) <==> Addressed(m, resource, system, k);
  }

  /** A slice of the array that holds just the matching entries is what a query needs. */
  lemma SliceServes(rs: seq<ResourceEntry>, lo: nat, hi: nat, resource: Option<CString>, system: Option<CString>)
    requires Ascending(rs) && lo <= hi <= |rs|
    requires forall i :: 0 <= i < |rs| ==> (Matches(rs[i].key, resource, system) <==> lo <= i < hi)
    ensures Serves(rs[lo..hi], Assoc(rs), resource, system)
  {
    var r := rs[lo..hi];
    SliceEntries(rs, lo, hi);
    forall k ensures HasKey(r, k) <==> Addressed(Assoc(rs), resource, system, k) {
      SliceHas(rs, lo, hi, resource, system, k);
    }
  }

  lemma SliceEntries(rs: seq<ResourceEntry>, lo: nat, hi: nat)
    requires Ascending(rs) && lo <= hi <= |rs|
    ensures Ascending(rs[lo..hi])
    ensures forall i :: 0 <= i < hi - lo ==>
      rs[lo..hi][i].key in Assoc(rs) && Assoc(rs)[rs[lo..hi][i].key] == rs[lo..hi][i].value
  {
    AscendingDistinct(rs);
    forall i | 0 <= i < hi - lo
      ensures rs[lo..hi][i].key in Assoc(rs) && Assoc(rs)[rs[lo..hi][i].key] == rs[lo..hi][i].value {
      AssocAt(rs, lo + i);
    }
  }

  lemma SliceHas(rs: seq<ResourceEntry>, lo: nat, hi: nat, resource: Option<CString>, system: Option<CString>,
                 k: ResKey)
    requires lo <= hi <= |rs|
    requires forall i :: 0 <= i < |rs| ==> (Matches(rs[i].key, resource, system) <==> lo <= i < hi)
    ensures HasKey(rs[lo..hi], k) <==> Addressed(Assoc(rs), resource, system, k)
  {
    AssocKeys(rs, k);
    if HasKey(rs[lo..hi], k) {
      var i :| 0 <= i < hi - lo && rs[lo..hi][i].key == k;
      assert rs[lo + i].key == k;
    }
    if Addressed(Assoc(rs), resource, system, k) {
      var i := Position(rs, k);
      assert rs[lo..hi][i - lo].key == k;
    }
  }

  method SomeResources(rs: seq<ResourceEntry>, resource: Option<CString>, system: Option<CString>)
    returns (rList: seq<ResourceEntry>)
    requires Ascending(rs) && Compact(Assoc(rs), resource, system)
    ensures Serves(rList, Assoc(rs), resource, system)
  {
    ghost var flags := MatchFlags(rs, resource, system);
    var slots, num := PartialResources(rs, resource, system);
    PartialFilledIff(rs, resource, system);
    CountBeyond(flags, num);
    rList := seq(num, i requires 0 <= i < num && slots[i].Some? => slots[i].value);
    assert rList == rs[0..num];
    SliceServes(rs, 0, num, resource, system);
  }

  lemma EmptyContents()
    ensures ContentsOf([]) == map[]
  {
    var none: seq<MetricHdr> := [];
    assert Assoc(none) == map[];
  }

  function Touched(m: map<ResKey, Values>, k: ResKey): map<ResKey, Values> {
    if k in m then m else m[k := []]
  }

  /** Binary search, and the insertion of a missing resource at the place the search ended. */
  method InsertRes(rs: seq<ResourceEntry>, key: ResKey, read: bool) returns (rs': seq<ResourceEntry>, ridx: int)
    requires Ascending(rs)
    ensures Ascending(rs') && Assoc(rs') == if read then Assoc(rs) else Touched(Assoc(rs), key)
    ensures read || HasKey(rs, key) ==> rs' == rs
    ensures ridx == -1 <==> read && !HasKey(rs, key)
    ensures ridx != -1 ==> 0 <= ridx < |rs'| && rs'[ridx].key == key
  {
    AssocKeys(rs, key);
    var found, pos := SearchRes(rs, key);
    if found {
      return rs, pos;
    }
    if !read {
      InsertAscending(rs, pos, Entry(key, []));
      AssocInsert(rs, pos, Entry(key, []));
      return rs[..pos] + [Entry(key, [])] + rs[pos..], pos;
    }
    return rs, -1;
  }

  method OneResource(rs: seq<ResourceEntry>, key: ResKey) returns (rList: seq<ResourceEntry>)
    requires Ascending(rs)
    ensures Serves(rList, Assoc(rs), Some(key.resource), Some(key.system))
  {
    var _, ridx := InsertRes(rs, key, true);
    AscendingDistinct(rs);
    if ridx < 0 {
      assert forall i :: 0 <= i < |rs| ==> rs[i].key != key;
      SliceServes(rs, 0, 0, Some(key.resource), Some(key.system));
      return rs[0..0];
    }
    SliceServes(rs, ridx, ridx + 1, Some(key.resource), Some(key.system));
    return rs[ridx..ridx + 1];
  }

  lemma ConsedRes(rs: seq<ResourceEntry>, ridx: nat, m: map<ResKey, Values>, k: ResKey, mv: MetricValue)
    requires Ascending(rs) && ridx < |rs| && rs[ridx].key == k && Assoc(rs) == Touched(m, k)
    ensures var rs' := rs[ridx := Entry(k, [mv] + rs[ridx].value)];
      Ascending(rs') && Assoc(rs') == m[k := [mv] + (if k in m then m[k] else [])]
  {
    AscendingDistinct(rs);
    AssocAt(rs, ridx);
    AssocUpdate(rs, ridx, [mv] + rs[ridx].value);
  }

  lemma ConsedHdr(hs: seq<MetricHdr>, idx: nat, rs: seq<ResourceEntry>, ridx: nat, mv: MetricValue)
    requires ValidHdrs(hs) && idx < |hs| && hs[idx].key == mv.id
    requires Ascending(rs) && ridx < |rs| && rs[ridx].key == KeyOf(mv)
    requires Assoc(rs) == Touched(Assoc(hs[idx].value), KeyOf(mv))
    ensures var hs' := hs[idx := Entry(mv.id, rs[ridx := Entry(KeyOf(mv), [mv] + rs[ridx].value)])];
      ValidHdrs(hs') && ContentsOf(hs') == Consed(ContentsOf(hs), mv)
  {
    var rs' := rs[ridx := Entry(KeyOf(mv), [mv] + rs[ridx].value)];
    AssocAt(hs, idx);
    assert InnerMap(ContentsOf(hs), mv.id) == Assoc(hs[idx].value);
    ConsedRes(rs, ridx, Assoc(hs[idx].value), KeyOf(mv), mv);
    UpdateHdr(hs, idx, rs');
  }

  lemma ConsedIndexed(m: Contents, m': Contents, mv: MetricValue)
    requires m' == if mv.id in m then m else m[mv.id := map[]]
    ensures Consed(m', mv) == Consed(m, mv)
  {
    assert InnerMap(m', mv.id) == InnerMap(m, mv.id);
  }

  /** `mv` and `num` hold, resource by resource, the values a query should return. */
  ghost predicate Answers(rList: seq<ResourceEntry>, from: Time, to: Time, maxnum: int, mv: seq<Values>,
                          num: seq<int>) {
    && |mv| == |num| == |rList|
    && (forall i :: 0 <= i < |rList| ==> num[i] == |mv[i]|)
    && (forall i :: 0 <= i < |rList| ==> AnswersOne(rList[i], from, to, maxnum, mv[i]))
  }

  /** The values of one resource: a block of its history, and in a newest-first history the expected one. */
  ghost predicate AnswersOne(r: ResourceEntry, from: Time, to: Time, maxnum: int, vs: Values) {
    exists first: nat :: BlockOf(r, first, vs)
      && (NewestFirst(r.value) ==> r.value[first..first + |vs|] == Expected(r.value, from, to, maxnum))
  }

  ghost predicate BlockOf(r: ResourceEntry, first: nat, vs: Values) {
    && first + |vs| <= |r.value|
    && forall j :: 0 <= j < |vs| ==> CopyOf(vs[j], r.value[first + j], r.key)
  }

  /** Everything but the names is copied from the stored value; the names are those of its resource. */
  ghost predicate CopyOf(v: MetricValue, stored: MetricValue, k: ResKey) {
    && v.id == stored.id && v.timeStamp == stored.timeStamp && v.dataType == stored.dataType && v.data == stored.data
    && v.resource == k.resource && v.systemId == k.system
  }

  method RetrieveResource(r: ResourceEntry, from: Time, to: Time, maxnum: int) returns (num: int, vs: Values)
    ensures num == |vs| && AnswersOne(r, from, to, maxnum, vs)
  {
    var first, n, block := RetrieveOne(r.value, from, to, maxnum);
    num, vs := n, Labelled(block, r.key);
    if num == 0 {
      assert r.value[0..0] == [] && BlockOf(r, 0, vs);
    } else {
      assert BlockOf(r, first, vs);
    }
  }

  /** In a newest-first history the values are known. */
  lemma AnswerKnown(r: ResourceEntry, from: Time, to: Time, maxnum: int, vs: Values)
    requires AnswersOne(r, from, to, maxnum, vs) && NewestFirst(r.value)
    ensures vs == Labelled(Expected(r.value, from, to, maxnum), r.key)
  {
    var first: nat :| BlockOf(r, first, vs) && r.value[first..first + |vs|] == Expected(r.value, from, to, maxnum);
    var expected := Expected(r.value, from, to, maxnum);
    forall j | 0 <= j < |vs| ensures vs[j] == Labelled(expected, r.key)[j] {
      assert CopyOf(vs[j], r.value[first + j], r.key) && expected[j] == r.value[first + j];
    }
  }

  lemma OneMoreSum(num: seq<int>, n: int)
    ensures Sum(num + [n]) == Sum(num) + n
  {
    assert (num + [n])[..|num|] == num;
  }

  method RetrieveNoLock(rList: seq<ResourceEntry>, from: Time, to: Time, maxnum: int)
    returns (totalnum: int, mv: seq<Values>, num: seq<int>)
    ensures totalnum == Sum(num) >= 0
    ensures Answers(rList, from, to, maxnum, mv, num)
  {
    totalnum, mv, num := 0, [], [];
    var k := 0;
    while k < |rList|
      invariant 0 <= k == |mv| == |num| <= |rList|
      invariant totalnum == Sum(num) >= 0
      invariant forall i :: 0 <= i < k ==> num[i] == |mv[i]|
      invariant forall i :: 0 <= i < k ==> AnswersOne(rList[i], from, to, maxnum, mv[i])
    {
      var n, vs := RetrieveResource(rList[k], from, to, maxnum);
      OneMoreSum(num, n);
      mv := mv + [vs];
      num := num + [n];
      totalnum := totalnum + n;
      k := k + 1;
    }
  }

  class LocalRepository {
    const configured: int
    var header: seq<MetricHdr>
    var nextPrune: int
    var expiration: int

    ghost predicate Valid()
      reads this
    {
      ValidHdrs(header) && (expiration == 0 || expiration == ClampExpiration(configured))
    }

    ghost function Snapshot(): Store
      reads this
    {
      Store(ContentsOf(header), nextPrune)
    }

    constructor (configured: int)
      ensures Valid() && Snapshot() == Store(map[], 0)
      ensures this.configured == configured
    {
      this.configured := configured;
      header, nextPrune, expiration := [], 0, 0;
      EmptyContents();
    }

    method LocateIndex(mid: int) returns (idx: int)
      ensures idx == -1 <==> !HasKey(header, mid)
      ensures idx != -1 ==> 0 <= idx < |header| && header[idx].key == mid
    {
      idx := 0;
      while idx < |header|
        invariant 0 <= idx <= |header|
        invariant forall k :: 0 <= k < idx ==> header[k].key != mid
      {
        if header[idx].key == mid {
          return;
        }
        idx := idx + 1;
      }
      idx := -1;
    }

    method AddIndex(mid: int) returns (idx: int)
      requires Valid() && !HasKey(header, mid)
      modifies this`header
      ensures Valid() && 0 <= idx < |header| && header[idx] == Entry(mid, [])
      ensures ContentsOf(header) == ContentsOf(old(header))[mid := map[]]
    {
      AssocInsert(header, |header|, Entry(mid, []));
      assert header[..|header|] + [Entry(mid, [])] + header[|header|..] == header + [Entry(mid, [])];
      header := header + [Entry(mid, [])];
      idx := |header| - 1;
    }

    /** Finds a resource, inserting it with an empty history unless `read` is set. */
    method LocateRes(idx: nat, key: ResKey, read: bool) returns (ridx: int)
      requires Valid() && idx < |header|
      modifies this`header
      ensures Valid() && |header| == |old(header)| && header == old(header)[idx := header[idx]]
      ensures header[idx].key == old(header)[idx].key
      ensures Assoc(header[idx].value) == if read then Assoc(old(header)[idx].value)
        else Touched(Assoc(old(header)[idx].value), key)
      ensures read || HasKey(old(header)[idx].value, key) ==> header == old(header)
      ensures ridx == -1 <==> read && !HasKey(old(header)[idx].value, key)
      ensures ridx != -1 ==> 0 <= ridx < |header[idx].value| && header[idx].value[ridx].key == key
    {
      var rs;
      rs, ridx := InsertRes(header[idx].value, key, read);
      UpdateHdr(header, idx, rs);
      header := header[idx := Entry(header[idx].key, rs)];
    }

    /** The lazy prune check.  It counts exactly the values it removes. */
    method PruneRepository(now: int) returns (numPruned: nat)
      requires Valid()
      modifies this
      ensures Valid()
      ensures Snapshot() == PruneStep(old(Snapshot()), now, ClampExpiration(configured))
      ensures numPruned == CountHdrs(old(header)) - CountHdrs(header)
    {
      if expiration == 0 {
        expiration := ClampExpiration(configured);
      }
      numPruned := PruneWith(now, expiration);
    }

    method PruneWith(now: int, exp: int) returns (numPruned: nat)
      requires Valid()
      modifies this`header, this`nextPrune
      ensures Valid() && Snapshot() == PruneStep(old(Snapshot()), now, exp)
      ensures numPruned == CountHdrs(old(header)) - CountHdrs(header)
    {
      numPruned := 0;
      if nextPrune < now {
        var kept, n := PruneHeader(header, now - exp);
        numPruned := n;
        header, nextPrune := kept, now + exp / 2;
      }
    }

    /** Prunes if due, then conses the value onto exactly one history. */
    method LocalMetricAdd(mv: MetricValue, now: int)
      requires Valid()
      modifies this
      ensures Valid()
      ensures Snapshot() == AddStep(old(Snapshot()), mv, now, ClampExpiration(configured))
    {
      var _ := PruneRepository(now);
      AddValue(mv);
    }

    method AddValue(mv: MetricValue)
      requires Valid()
      modifies this`header
      ensures Valid() && ContentsOf(header) == Consed(ContentsOf(old(header)), mv)
    {
      ghost var hs := header;
      AssocKeys(header, mv.id);
      var idx := LocateIndex(mv.id);
      if idx == -1 {
        idx := AddIndex(mv.id);
      }
      ConsedIndexed(ContentsOf(hs), ContentsOf(header), mv);
      ConsAt(idx, mv);
    }

    /** Conses the value onto the history of its resource below metric number `idx`. */
    method ConsAt(idx: nat, mv: MetricValue)
      requires Valid() && idx < |header| && header[idx].key == mv.id
      modifies this`header
      ensures Valid() && ContentsOf(header) == Consed(ContentsOf(old(header)), mv)
    {
      ghost var hs := header;
      var ridx := LocateRes(idx, KeyOf(mv), false);
      var rs := header[idx].value;
      ConsedHdr(hs, idx, rs, ridx, mv);
      header := header[idx := Entry(mv.id, rs[ridx := Entry(KeyOf(mv), [mv] + rs[ridx].value)])];
      assert header == hs[idx := header[idx]];
    }

    /** The resources a query addresses, in ascending order. */
    method Resources(idx: nat, resource: Option<CString>, system: Option<CString>) returns (rList: seq<ResourceEntry>)
      requires Valid() && idx < |header|
      requires (resource.Some? <==> system.Some?) || Compact(Assoc(header[idx].value), resource, system)
      ensures Serves(rList, Assoc(header[idx].value), resource, system)
    {
      var rs := header[idx].value;
      if resource.None? && system.None? {
        assert rs[0..|rs|] == rs;
        SliceServes(rs, 0, |rs|, resource, system);
        rList := rs;
      } else if resource.Some? && system.Some? {
        rList := OneResource(rs, ResKey(resource.value, system.value));
      } else {
        rList := SomeResources(rs, resource, system);
      }
    }

    /** Retrieval: every addressed resource once, in ascending order, each with its expected values. */
    method LocalMetricRetrieve(mid: int, resource: Option<CString>, system: Option<CString>, from: Time, to: Time,
                               maxnum: int)
      returns (rc: int, rList: seq<ResourceEntry>, mv: seq<Values>, num: seq<int>)
      requires Valid() && Retrievable(ContentsOf(header), mid, from, resource, system)
      ensures rc == -1 <==> from < 0 || mid !in ContentsOf(header)
      ensures rc != -1 ==> rc == Sum(num) && Answers(rList, from, to, maxnum, mv, num)
      ensures rc != -1 ==> Serves(rList, ContentsOf(header)[mid], resource, system)
    {
      rc, rList, mv, num := -1, [], [], [];
      AssocKeys(header, mid);
      if from < 0 {
        return;
      }
      var idx := LocateIndex(mid);
      if idx < 0 {
        return;
      }
      AssocAt(header, idx);
      assert Assoc(header[idx].value) == ContentsOf(header)[mid];
      rList := Resources(idx, resource, system);
      rc, mv, num := RetrieveNoLock(rList, from, to, maxnum);
    }

    method LocalMetricShutdown()
      modifies this
      ensures Snapshot() == old(Snapshot()).(contents := map[])
      ensures old(Valid()) ==> Valid()
    {
      header := [];
      EmptyContents();
    }
  }
}
