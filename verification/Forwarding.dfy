/** The table that maps local correlator ids to the listeners they were issued to (sforward.c). */
module Forwarding {
  import opened CBytes
  import opened Wire
  import Marshal
  import MarshalOps

  datatype Entry = Entry(id: Int32, corrid: Int32, origCorrid: Int32, listener: CString)

  /** The list from `fwHead`, and `fwCorrelatorId`. */
  datatype Table = Table(entries: seq<Entry>, counter: int)

  /** What the table uses of a subscription request. */
  datatype Subscriber = Subscriber(id: Int32, corrid: Int32, listener: CString)

  predicate Matches(e: Entry, s: Subscriber) {
    e.id == s.id && e.origCorrid == s.corrid && e.listener == s.listener
  }

  /** The position of the first entry for `s`, or the length of the list. */
  function Find(entries: seq<Entry>, s: Subscriber): (i: nat)
    ensures i <= |entries| && (i < |entries| ==> Matches(entries[i], s))
    ensures forall k :: 0 <= k < i ==> !Matches(entries[k], s)
  {
    if entries == [] || Matches(entries[0], s) then 0 else 1 + Find(entries[1..], s)
  }

  predicate Present(entries: seq<Entry>, s: Subscriber) {
    exists e :: e in entries && Matches(e, s)
  }

  function NewEntry(counter: int, s: Subscriber): Entry {
    Entry(s.id, ToInt32(counter), s.corrid, s.listener)
  }

  function Enabled(t: Table, s: Subscriber): Table {
    if Find(t.entries, s) < |t.entries| then t else Table(t.entries + [NewEntry(t.counter, s)], t.counter + 1)
  }

  function Disabled(t: Table, s: Subscriber): Table {
    var i := Find(t.entries, s);
    if i < |t.entries| then t.(entries := t.entries[..i] + t.entries[i + 1..]) else t
  }

  /** The search of `subs_forward`, which stops at the first larger id. */
  function Lookup(entries: seq<Entry>, corrid: int): Option<Entry> {
    if entries == [] || corrid < entries[0].corrid then None
    else if entries[0].corrid == corrid then Some(entries[0])
    else Lookup(entries[1..], corrid)
  }

  // ----- the list is kept in issuing order -----

  ghost predicate Ascending(entries: seq<Entry>) {
    forall i, j :: 0 <= i < j < |entries| ==> entries[i].corrid < entries[j].corrid
  }

  /** At most one entry for a (metric, client id, listener). */
  ghost predicate Unique(entries: seq<Entry>) {
    forall i, j :: 0 <= i < j < |entries| ==> !SameSubscriber(entries[i], entries[j])
  }

  predicate SameSubscriber(d: Entry, e: Entry) {
    d.id == e.id && d.origCorrid == e.origCorrid && d.listener == e.listener
  }

  ghost predicate Holds(entries: seq<Entry>, corrid: int) {
    exists e :: e in entries && e.corrid == corrid
  }

  ghost predicate Distinct(entries: seq<Entry>) {
    forall i, j :: 0 <= i < j < |entries| ==> entries[i].corrid != entries[j].corrid
  }

  /** The search finds every entry exactly if the list is ascending. */
  lemma {:induction false} LookupFindsAllIffAscending(entries: seq<Entry>)
    requires Distinct(entries)
    ensures (forall e :: e in entries ==> Lookup(entries, e.corrid) == Some(e)) <==> Ascending(entries)
  {
    if entries != [] {
      var rest := entries[1..];
      LookupFindsAllIffAscending(rest);
      assert forall e :: e in entries <==> e == entries[0] || e in rest;
      assert forall e :: e in rest ==> e.corrid != entries[0].corrid;
      AscendingTail(entries);
    }
  }

  lemma AscendingTail(entries: seq<Entry>)
    requires entries != []
    ensures Ascending(entries) <==>
      Ascending(entries[1..]) && forall e :: e in entries[1..] ==> entries[0].corrid < e.corrid
  {
    var rest := entries[1..];
    if Ascending(rest) && forall e :: e in rest ==> entries[0].corrid < e.corrid {
      forall i, j | 0 <= i < j < |entries|
        ensures entries[i].corrid < entries[j].corrid
      {
        assert entries[j] == rest[j - 1] && entries[j] in rest;
        if i > 0 {
          assert entries[i] == rest[i - 1];
        }
      }
    }
    if Ascending(entries) {
      assert forall i, j :: 0 <= i < j < |rest| ==> rest[i] == entries[i + 1] && rest[j] == entries[j + 1];
    }
  }

  lemma LookupIff(entries: seq<Entry>, corrid: int)
    requires Ascending(entries)
    ensures Lookup(entries, corrid).Some? <==> Holds(entries, corrid)
    ensures Lookup(entries, corrid).Some? ==>
      Lookup(entries, corrid).value in entries && Lookup(entries, corrid).value.corrid == corrid
  {
    LookupSound(entries, corrid);
    LookupFindsAllIffAscending(entries);
  }

  lemma {:induction false} LookupSound(entries: seq<Entry>, corrid: int)
    ensures Lookup(entries, corrid).Some? ==>
      Lookup(entries, corrid).value in entries && Lookup(entries, corrid).value.corrid == corrid
  {
    if entries != [] {
      LookupSound(entries[1..], corrid);
    }
  }

  // ----- runs -----

  datatype Event = Enable(s: Subscriber) | Disable(s: Subscriber)

  /** A table and everything it ever issued: `log[c]` is the entry issued with local id `c`. */
  datatype State = State(table: Table, log: seq<Entry>)

  function Step(st: State, e: Event): State {
    match e
    case Enable(s) =>
      State(Enabled(st.table, s),
            if Present(st.table.entries, s) then st.log else st.log + [NewEntry(st.table.counter, s)])
    case Disable(s) => State(Disabled(st.table, s), st.log)
  }

  function Run(st: State, events: seq<Event>): State
    decreases |events|
  {
    if events == [] then st else Run(Step(st, events[0]), events[1..])
  }

  const EMPTY := State(Table([], 0), [])

  /** Every id the counter has given out so far was an `int`. */
  predicate InRange(st: State) {
    st.table.counter <= TWO_31
  }

  ghost predicate Valid(st: State) {
    && |st.log| == st.table.counter <= TWO_31
    && (forall c :: 0 <= c < |st.log| ==> st.log[c].corrid == c)
    && (forall e :: e in st.table.entries ==> 0 <= e.corrid < |st.log| && e == st.log[e.corrid])
    && Ascending(st.table.entries) && Unique(st.table.entries)
  }

  lemma FindIsPresent(entries: seq<Entry>, s: Subscriber)
    ensures Find(entries, s) < |entries| <==> Present(entries, s)
  {
  }

  lemma AppendKeeps(entries: seq<Entry>, e: Entry)
    requires Ascending(entries) && Unique(entries)
    requires forall d :: d in entries ==> d.corrid < e.corrid && !SameSubscriber(d, e)
    ensures Ascending(entries + [e]) && Unique(entries + [e])
  {
    assert forall k :: 0 <= k < |entries| ==> entries[k] in entries;
  }

  lemma EnableSteps(st: State, s: Subscriber)
    ensures Step(st, Enable(s)) ==
      if Present(st.table.entries, s) then st
      else
        var e := NewEntry(st.table.counter, s);
        State(Table(st.table.entries + [e], st.table.counter + 1), st.log + [e])
  {
    FindIsPresent(st.table.entries, s);
  }

  lemma IssuedKeeps(st: State, e: Entry)
    requires Valid(st) && st.table.counter < TWO_31 && e.corrid == st.table.counter
    requires forall d :: d in st.table.entries ==> !SameSubscriber(d, e)
    ensures Valid(State(Table(st.table.entries + [e], st.table.counter + 1), st.log + [e]))
  {
    AppendKeeps(st.table.entries, e);
  }

  lemma EnableKeeps(st: State, s: Subscriber)
    requires Valid(st) && InRange(Step(st, Enable(s)))
    ensures Valid(Step(st, Enable(s)))
  {
    EnableSteps(st, s);
    if !Present(st.table.entries, s) {
      var e := NewEntry(st.table.counter, s);
      forall d | d in st.table.entries ensures !SameSubscriber(d, e) {
        assert !Matches(d, s);
      }
      IssuedKeeps(st, e);
    }
  }

  lemma RemoveKeeps(entries: seq<Entry>, i: nat)
    requires i < |entries|
    ensures var now := entries[..i] + entries[i + 1..];
      && (Ascending(entries) ==> Ascending(now)) && (Unique(entries) ==> Unique(now))
      && forall e :: e in now ==> e in entries
  {
    var now := entries[..i] + entries[i + 1..];
    forall k | 0 <= k < |now|
      ensures now[k] == entries[if k < i then k else k + 1]
    {
    }
  }

  lemma DisableKeeps(st: State, s: Subscriber)
    requires Valid(st)
    ensures Valid(Step(st, Disable(s)))
    ensures forall e :: e in Disabled(st.table, s).entries ==> e in st.table.entries
  {
    var i := Find(st.table.entries, s);
    if i < |st.table.entries| {
      RemoveKeeps(st.table.entries, i);
    }
  }

  lemma {:induction false} CounterGrows(st: State, events: seq<Event>)
    ensures st.table.counter <= Run(st, events).table.counter
    decreases |events|
  {
    if events != [] {
      CounterGrows(Step(st, events[0]), events[1..]);
    }
  }

  lemma StepValid(st: State, e: Event)
    requires Valid(st) && InRange(Step(st, e))
    ensures Valid(Step(st, e)) && st.log <= Step(st, e).log
  {
    match e
    case Enable(s) => EnableKeeps(st, s);
    case Disable(s) => DisableKeeps(st, s);
  }

  /** Over every run: the list is strictly ascending in local ids, has one entry per subscriber, and every entry is the
      one that was issued with its id; the log of issued ids only grows. */
  lemma {:induction false} RunValid(st: State, events: seq<Event>)
    requires Valid(st) && InRange(Run(st, events))
    ensures Valid(Run(st, events)) && st.log <= Run(st, events).log
    decreases |events|
  {
    if events != [] {
      CounterGrows(Step(st, events[0]), events[1..]);
      StepValid(st, events[0]);
      RunValid(Step(st, events[0]), events[1..]);
    }
  }

  /** At any two moments of a run a local id that is found leads to the same listener, metric and client id. */
  lemma LocalIdMeansOneSubscriber(st: State, earlier: seq<Event>, later: seq<Event>, c: int)
    requires Valid(st) && InRange(Run(Run(st, earlier), later))
    requires Lookup(Run(st, earlier).table.entries, c).Some?
      && Lookup(Run(Run(st, earlier), later).table.entries, c).Some?
    ensures Lookup(Run(st, earlier).table.entries, c) == Lookup(Run(Run(st, earlier), later).table.entries, c)
  {
    var mid := Run(st, earlier);
    CounterGrows(mid, later);
    RunValid(st, earlier);
    RunValid(mid, later);
    LookupSound(mid.table.entries, c);
    LookupSound(Run(mid, later).table.entries, c);
  }

  /** An id that was issued and is gone stays gone. */
  lemma {:induction false} NeverReissued(st: State, events: seq<Event>, c: int)
    requires Valid(st) && InRange(Run(st, events)) && c < |st.log| && !Holds(st.table.entries, c)
    ensures !Holds(Run(st, events).table.entries, c)
    decreases |events|
  {
    if events != [] {
      CounterGrows(Step(st, events[0]), events[1..]);
      StepValid(st, events[0]);
      StepReissuesNothing(st, events[0], c);
      NeverReissued(Step(st, events[0]), events[1..], c);
    }
  }

  lemma StepReissuesNothing(st: State, e: Event, c: int)
    requires Valid(st) && InRange(Step(st, e)) && c < |st.log| && !Holds(st.table.entries, c)
    ensures !Holds(Step(st, e).table.entries, c)
  {
    match e
    case Disable(s) => DisableKeeps(st, s);
    case Enable(s) =>
      FindIsPresent(st.table.entries, s);
      assert forall d :: d in Step(st, e).table.entries ==> d in st.table.entries || d == NewEntry(st.table.counter, s);
  }

  /** After its subscriber disabled it, a local id reaches nobody, however the run goes on. */
  lemma DisabledReachesNobody(st: State, s: Subscriber, e: Entry, events: seq<Event>)
    requires Valid(st) && e in st.table.entries && Matches(e, s) && InRange(Run(Step(st, Disable(s)), events))
    ensures Lookup(Run(Step(st, Disable(s)), events).table.entries, e.corrid) == None
  {
    var next := Step(st, Disable(s));
    DisableKeeps(st, s);
    DisableRemoves(st, s, e);
    NeverReissued(next, events, e.corrid);
    LookupSound(Run(next, events).table.entries, e.corrid);
  }

  lemma DisableRemoves(st: State, s: Subscriber, e: Entry)
    requires Valid(st) && e in st.table.entries && Matches(e, s)
    ensures !Holds(Disabled(st.table, s).entries, e.corrid)
  {
    var entries, i := st.table.entries, Find(st.table.entries, s);
    FindIsPresent(entries, s);
    var k :| 0 <= k < |entries| && entries[k] == e;
    assert SameSubscriber(entries[i], entries[k]);
    assert i == k;
    assert forall d :: d in entries[..i] + entries[i + 1..] ==> d.corrid != e.corrid;
  }

  /** Everybody else can still be reached after somebody disabled his subscription. */
  lemma OthersStay(st: State, s: Subscriber, e: Entry)
    requires Valid(st) && e in st.table.entries
    requires e.id != s.id || e.origCorrid != s.corrid || e.listener != s.listener
    ensures e in Step(st, Disable(s)).table.entries
    ensures Lookup(Step(st, Disable(s)).table.entries, e.corrid) == Some(e)
  {
    var entries, i := st.table.entries, Find(st.table.entries, s);
    var k :| 0 <= k < |entries| && entries[k] == e;
    if i < |entries| {
      assert k != i;
      var now := entries[..i] + entries[i + 1..];
      assert now[if k < i then k else k - 1] == e;
    }
    DisableKeeps(st, s);
    LookupFindsAllIffAscending(Step(st, Disable(s)).table.entries);
  }

  /** An entry whose subscriber does not disable it is found by its local id, however the run goes on. */
  lemma {:induction false} StaysReachable(st: State, e: Entry, events: seq<Event>)
    requires Valid(st) && InRange(Run(st, events)) && e in st.table.entries
    requires forall s :: Disable(s) in events ==> e.id != s.id || e.origCorrid != s.corrid || e.listener != s.listener
    ensures Lookup(Run(st, events).table.entries, e.corrid) == Some(e)
    decreases |events|
  {
    if events == [] {
      LookupFindsAllIffAscending(st.table.entries);
    } else {
      var next := Step(st, events[0]);
      CounterGrows(next, events[1..]);
      StepValid(st, events[0]);
      match events[0] {
        case Enable(s) => EnableSteps(st, s);
        case Disable(s) => OthersStay(st, s, e);
      }
      StaysReachable(next, e, events[1..]);
    }
  }

  /** A new subscriber is reached by the local id put in his request: with his own metric, client id and listener. */
  lemma EnabledReached(st: State, s: Subscriber)
    requires Valid(st) && InRange(Step(st, Enable(s)))
    requires forall e :: e in st.table.entries ==> e.id != s.id || e.origCorrid != s.corrid || e.listener != s.listener
    ensures Lookup(Step(st, Enable(s)).table.entries, LocalId(st.table, s))
      == Some(Entry(s.id, st.table.counter, s.corrid, s.listener))
  {
    assert !Present(st.table.entries, s);
    FindIsPresent(st.table.entries, s);
    assert st.table.counter < TWO_31 && ToInt32(st.table.counter) == st.table.counter;
    NewIdFoundIff(st.table, s);
  }

  // ----- the limits -----

  /** When adding an entry keeps the list ascending, however the counter got where it is. */
  lemma EnableAscendingIff(t: Table, s: Subscriber)
    requires Ascending(t.entries) && !Present(t.entries, s)
    ensures Ascending(Enabled(t, s).entries) <==>
      t.entries == [] || t.entries[|t.entries| - 1].corrid < ToInt32(t.counter)
  {
    FindIsPresent(t.entries, s);
    var e := NewEntry(t.counter, s);
    assert Enabled(t, s).entries == t.entries + [e];
    if t.entries != [] {
      AppendAscendingIff(t.entries, e);
    }
  }

  lemma AppendAscendingIff(entries: seq<Entry>, e: Entry)
    requires Ascending(entries) && entries != []
    ensures Ascending(entries + [e]) <==> entries[|entries| - 1].corrid < e.corrid
  {
    var now, last := entries + [e], |entries| - 1;
    if Ascending(now) {
      assert now[last].corrid < now[last + 1].corrid;
    }
    if entries[last].corrid < e.corrid {
      forall i, j | 0 <= i < j < |now|
        ensures now[i].corrid < now[j].corrid
      {
        assert i < last ==> entries[i].corrid < entries[last].corrid;
      }
    }
  }

  /** An entry added at the end is found exactly if its id is larger than all ids before it, in any list. */
  lemma {:induction false} LookupAppendedIff(entries: seq<Entry>, e: Entry)
    requires e !in entries
    ensures Lookup(entries + [e], e.corrid) == Some(e) <==> forall d :: d in entries ==> d.corrid < e.corrid
  {
    if entries == [] {
      assert [] + [e] == [e];
    } else {
      var rest := entries[1..];
      assert (entries + [e])[1..] == rest + [e];
      assert forall d :: d in entries <==> d == entries[0] || d in rest;
      LookupAppendedIff(rest, e);
    }
  }

  /** When a new subscriber can be reached by its new id, whatever the list and however the counter got where it is. */
  lemma NewIdFoundIff(t: Table, s: Subscriber)
    requires !Present(t.entries, s)
    ensures Lookup(Enabled(t, s).entries, ToInt32(t.counter)) == Some(NewEntry(t.counter, s))
      <==> forall d :: d in t.entries ==> d.corrid < ToInt32(t.counter)
  {
    FindIsPresent(t.entries, s);
    assert Matches(NewEntry(t.counter, s), s);
    LookupAppendedIff(t.entries, NewEntry(t.counter, s));
  }

  /** Ids issued after 2^31 - 1 are negative: such an id is found exactly if all others in the list are negative and
      smaller.  The first of them is found exactly if the list is empty. */
  lemma WrapAround(t: Table, s: Subscriber)
    requires TWO_31 <= t.counter < TWO_32 && !Present(t.entries, s)
    ensures Lookup(Enabled(t, s).entries, t.counter - TWO_32) == Some(NewEntry(t.counter, s))
      <==> forall d :: d in t.entries ==> d.corrid < t.counter - TWO_32
    ensures t.counter == TWO_31 ==>
      (Lookup(Enabled(t, s).entries, -TWO_31) == Some(NewEntry(t.counter, s)) <==> t.entries == [])
  {
    NewIdFoundIff(t, s);
    assert ToInt32(t.counter) == t.counter - TWO_32;
    if t.entries != [] {
      assert t.entries[0] in t.entries;
    }
  }

  /** With an entry from before the overflow in the list, no id issued after it is found until the counter has gone
      round. */
  lemma OverflowHides(t: Table, s: Subscriber, old_: Entry)
    requires TWO_31 <= t.counter < TWO_32 && !Present(t.entries, s) && old_ in t.entries && old_.corrid >= 0
    ensures Lookup(Enabled(t, s).entries, LocalId(t, s)) != Some(NewEntry(t.counter, s))
  {
    FindIsPresent(t.entries, s);
    WrapAround(t, s);
  }

  /** A subscription that stays while another comes and goes: the table keeps its first entry, and the counter gets
      wherever it likes. */
  lemma {:induction false} CounterReaches(a: CString, b: CString, n: nat) returns (events: seq<Event>)
    requires a != b
    ensures Run(EMPTY, events).table == Table([Entry(7, 0, 1, a)], n + 1)
  {
    var kept, gone := Subscriber(7, 1, a), Subscriber(7, 5, b);
    if n == 0 {
      events := [Enable(kept)];
      assert events[1..] == [];
    } else {
      var before := CounterReaches(a, b, n - 1);
      events := before + [Enable(gone), Disable(gone)];
      RunOn(EMPTY, before, [Enable(gone), Disable(gone)]);
      ComesAndGoes(Run(EMPTY, before), kept, gone);
    }
  }

  lemma ComesAndGoes(st: State, kept: Subscriber, gone: Subscriber)
    requires st.table.entries == [Entry(kept.id, 0, kept.corrid, kept.listener)] && kept.listener != gone.listener
    ensures Run(st, [Enable(gone), Disable(gone)]).table == Table(st.table.entries, st.table.counter + 1)
  {
    var events := [Enable(gone), Disable(gone)];
    var e := NewEntry(st.table.counter, gone);
    assert events[1..] == [Disable(gone)] && [Disable(gone)][1..] == [];
    var mid := Step(st, Enable(gone));
    assert !Matches(st.table.entries[0], gone) && Matches(e, gone);
    assert Find(st.table.entries, gone) == 1;
    assert mid.table == Table(st.table.entries + [e], st.table.counter + 1);
    assert mid.table.entries[0] == st.table.entries[0] && Find(mid.table.entries, gone) == 1;
    assert Run(Step(mid, Disable(gone)), []) == Step(mid, Disable(gone));
  }

  lemma {:induction false} RunOn(st: State, first: seq<Event>, then_: seq<Event>)
    ensures Run(st, first + then_) == Run(Run(st, first), then_)
    decreases |first|
  {
    if first == [] {
      assert first + then_ == then_;
    } else {
      assert (first + then_)[1..] == first[1..] + then_;
      RunOn(Step(st, first[0]), first[1..], then_);
    }
  }

  /** So from the empty table every id past 2^31 - 1 (and before the counter has gone round) is issued in some run in
      which its new subscriber cannot be reached by it. */
  lemma OverflowReached(a: CString, b: CString, n: nat) returns (events: seq<Event>)
    requires a != b && TWO_31 <= n < TWO_32
    ensures var t := Run(EMPTY, events).table; var s := Subscriber(7, 5, b);
      && t.counter == n && LocalId(t, s) == n - TWO_32
      && Lookup(Enabled(t, s).entries, LocalId(t, s)) != Some(NewEntry(n, s))
  {
    events := CounterReaches(a, b, n - 1);
    var t, s := Run(EMPTY, events).table, Subscriber(7, 5, b);
    assert !Matches(t.entries[0], s);
    OverflowHides(t, s, t.entries[0]);
  }

  /** The correlator id in the request after `subs_enable_forwarding`. */
  function LocalId(t: Table, s: Subscriber): Int32 {
    if Find(t.entries, s) < |t.entries| then s.corrid else ToInt32(t.counter)
  }

  /** The id left in the request leads back to the subscriber exactly if it was not in the table yet, or if its own id
      happens to be the local one. */
  lemma LocalIdReachesSubscriberIff(st: State, s: Subscriber)
    requires Valid(st) && InRange(Step(st, Enable(s)))
    ensures (var r := Lookup(Enabled(st.table, s).entries, LocalId(st.table, s)); r.Some? && Matches(r.value, s))
      <==> !Present(st.table.entries, s) || exists e :: e in st.table.entries && Matches(e, s) && e.corrid == s.corrid
  {
    var entries, now, c := st.table.entries, Enabled(st.table, s).entries, LocalId(st.table, s);
    FindIsPresent(entries, s);
    EnableKeeps(st, s);
    LookupIff(now, c);
    if !Present(entries, s) {
      var e := NewEntry(st.table.counter, s);
      assert now[|now| - 1] == e && e in now && e.corrid == c;
      LookupFindsAllIffAscending(now);
    } else if e :| e in entries && Matches(e, s) && e.corrid == s.corrid {
      LookupFindsAllIffAscending(entries);
    }
  }

  /** Subscribing twice can lead to somebody else: the first client's id 1 is the local id of the second client. */
  lemma RepeatedSubscriptionReachesAnother(a: CString, b: CString)
    requires a != b
    ensures var first, second := Subscriber(7, 1, a), Subscriber(7, 5, b);
      var st := Run(EMPTY, [Enable(first), Enable(second)]);
      && Enabled(st.table, first) == st.table
      && Lookup(st.table.entries, LocalId(st.table, first)) == Some(Entry(7, 1, 5, b))
  {
    var first, second := Subscriber(7, 1, a), Subscriber(7, 5, b);
    var st1 := Step(EMPTY, Enable(first));
    assert st1.table == Table([Entry(7, 0, 1, a)], 1);
    var st2 := Step(st1, Enable(second));
    assert st2.table == Table([Entry(7, 0, 1, a), Entry(7, 1, 5, b)], 2);
    assert [Enable(first), Enable(second)][1..] == [Enable(second)] && [Enable(second)][1..] == [];
    assert Run(st2, []) == st2 && Run(st1, [Enable(second)]) == st2;
    assert st2.table.entries[1..] == [Entry(7, 1, 5, b)];
  }

  // ----- what is sent -----

  const BUFFER: nat := 1000

  function Unsigned(x: Int32): Word32 {
    x % TWO_32
  }

  /** The original client id, then the value request. */
  function Message(origCorrid: Int32, vr: Marshal.Request): seq<byte> {
    Little(Unsigned(origCorrid), 4) + vr.Bytes()
  }

  lemma MessageLayout(origCorrid: Int32, vr: Marshal.Request)
    ensures var m := Message(origCorrid, vr);
      && Load(m[..4]) == (if origCorrid < 0 then origCorrid + 0x1_0000_0000 else origCorrid) && m[4..] == vr.Bytes()
  {
    Widths();
    LoadLittle(Unsigned(origCorrid), 4);
    Cut(Little(Unsigned(origCorrid), 4), vr.Bytes());
  }

  /** How a listener reads a message. */
  function GetMessage(b: seq<byte>): Option<(Int32, Marshal.RequestView)> {
    var (id, b1) :- GetData(b, 4);
    var (vr, b2) :- Marshal.GetRequest(b1);
    Some((ToInt32(Load(id)), vr))
  }

  /** A listener receives its own client's id with the values. */
  lemma MessageRoundTrip(origCorrid: Int32, vr: Marshal.Request)
    requires vr.Representable()
    ensures GetMessage(Message(origCorrid, vr)) == Some((origCorrid, vr.View()))
  {
    IdRoundTrip(origCorrid);
    Cut(Little(Unsigned(origCorrid), 4), vr.Bytes());
    assert vr.Bytes() + [] == vr.Bytes();
    Marshal.RequestRoundTrip(vr, []);
  }

  lemma IdRoundTrip(id: Int32)
    ensures ToInt32(Load(Little(Unsigned(id), 4))) == id
  {
    Widths();
    LoadLittle(Unsigned(id), 4);
    assert ToInt32(Unsigned(id)) == id;
  }

  class ForwardingTable {
    var entries: seq<Entry>
    var counter: int

    ghost function Contents(): Table
      reads this
    {
      Table(entries, counter)
    }

    constructor ()
      ensures Contents() == EMPTY.table
    {
      entries, counter := [], 0;
    }

    /** The position of the first entry for a subscriber, by comparing the listener names as C strings. */
    method Search(s: Subscriber) returns (i: nat)
      ensures i == Find(entries, s)
    {
      i := 0;
      assert entries[0..] == entries;
      while i < |entries|
        invariant i <= |entries| && Find(entries, s) == i + Find(entries[i..], s)
      {
        var e := entries[i];
        StrCmpEqual(s.listener, e.listener);
        if e.id == s.id && e.origCorrid == s.corrid && StrCmp(s.listener, e.listener) == 0 {
          return;
        }
        assert entries[i..][1..] == entries[i + 1..];
        i := i + 1;
      }
    }

    /** `subs_enable_forwarding`; the new correlator id of the request is returned. */
    method Enable(id: Int32, corrid: Int32, listener: Option<CString>) returns (rc: int, corrid': Int32)
      modifies this
      ensures listener.None? ==> rc == -1 && corrid' == corrid && Contents() == old(Contents())
      ensures listener.Some? ==>
        rc == 0 && Contents() == Enabled(old(Contents()), Subscriber(id, corrid, listener.value))
      ensures listener.Some? ==> corrid' == LocalId(old(Contents()), Subscriber(id, corrid, listener.value))
    {
      rc, corrid' := -1, corrid;
      if listener.Some? {
        var i := Search(Subscriber(id, corrid, listener.value));
        rc := 0;
        if i == |entries| {
          corrid' := ToInt32(counter);
          counter := counter + 1;
          entries := entries + [Entry(id, corrid', corrid, listener.value)];
        }
      }
    }

    /** `subs_disable_forwarding`. */
    method Disable(id: Int32, corrid: Int32, listener: Option<CString>) returns (rc: int)
      modifies this
      ensures listener.None? ==> rc == -1 && Contents() == old(Contents())
      ensures listener.Some? ==> Contents() == Disabled(old(Contents()), Subscriber(id, corrid, listener.value))
      ensures listener.Some? ==>
        (rc == 0 <==> Present(old(entries), Subscriber(id, corrid, listener.value))) && rc in {0, -1}
    {
      rc := -1;
      if listener.Some? {
        var i := Search(Subscriber(id, corrid, listener.value));
        FindIsPresent(entries, Subscriber(id, corrid, listener.value));
        if i < |entries| {
          entries := entries[..i] + entries[i + 1..];
          rc := 0;
        }
      }
    }

    /** `subs_forward`: what is sent to whom, if anything. */
    method Forward(corrid: int, vr: Marshal.Request) returns (sent: Option<(CString, seq<byte>)>)
      ensures var r := Lookup(entries, corrid);
        && (sent.Some? <==> r.Some? && vr.Sendable() && |Message(r.value.origCorrid, vr)| <= 1000)
        && (sent.Some? ==> sent.value == (r.value.listener, Message(r.value.origCorrid, vr)))
    {
      sent := None;
      var i := 0;
      assert entries[0..] == entries;
      while i < |entries| && corrid >= entries[i].corrid
        invariant 0 <= i <= |entries| && sent == None
        invariant Lookup(entries, corrid) == Lookup(entries[i..], corrid)
      {
        if entries[i].corrid == corrid {
          var message := Compose(entries[i].origCorrid, vr);
          if message.Some? {
            sent := Some((entries[i].listener, message.value));
          }
          return;
        }
        assert entries[i..][1..] == entries[i + 1..];
        i := i + 1;
      }
    }
  }

  /** Marshals a message in the send buffer. */
  method Compose(origCorrid: Int32, vr: Marshal.Request) returns (message: Option<seq<byte>>)
    ensures message == if vr.Sendable() && |Message(origCorrid, vr)| <= BUFFER then Some(Message(origCorrid, vr))
      else None
  {
    var sendbuffer := new byte[BUFFER](_ => 0);
    message := None;
    var rc, size := MarshalOps.PutData(Some(Little(Unsigned(origCorrid), 4)), sendbuffer, 0, BUFFER);
    ghost var first := sendbuffer[..];
    rc, size := MarshalOps.MarshalValueRequest(vr, sendbuffer, size, BUFFER);
    if rc == 0 {
      message := Some(sendbuffer[..size]);
      assert first[..4] == Little(Unsigned(origCorrid), 4);
      assert sendbuffer[..size] == Message(origCorrid, vr);
    }
  }
}
