/** The list of metric blocks and its atomic operations (mlist.c).  Pointers are names, `mem` holds the
    allocated blocks, and freeing a block removes it from `mem`. */
module Scheduler {
  import opened CBytes

  type Id = nat

  datatype MState = Ready | InProgress | Created | Reserved | Deleted

  datatype Block = Block(metricId: int, interval: int, due: int, state: MState)

  ghost predicate Distinct(list: seq<Id>) {
    forall i, j :: 0 <= i < j < |list| ==> list[i] != list[j]
  }

  datatype Core = Core(sync: bool, list: seq<Id>, mem: map<Id, Block>) {
    ghost predicate WellFormed() {
      && (forall id :: id in list ==> id in mem)
      && Distinct(list)
      && (sync ==> forall id :: id in mem ==> mem[id].interval > 0)
    }

    function At(i: nat): Block
      requires i < |list| && list[i] in mem
    {
      mem[list[i]]
    }

    function Set(id: Id, b: Block): Core {
      this.(mem := mem[id := b])
    }
  }

  predicate Waiting(b: Block) { b.state == Ready || b.state == Reserved }

  /** Due time after a selection at `t`: the end of the aligned window, or one interval later. */
  function NextDue(sync: bool, t: int, interval: int): int
    requires sync ==> interval > 0
  {
    t + interval - (if sync then t % interval else 0)
  }

  /** Due time given by an insertion or a reset at `t`. */
  function FirstDue(sync: bool, t: int, interval: int): int
    requires sync ==> interval > 0
  {
    if sync then t - t % interval + interval else 0
  }

  // ----- selection -----

  datatype Pick = Due(i: nat) | Later(i: nat) | Nothing

  /** Where the walk of the list from position `i` stops. */
  function Scan(c: Core, t: int, i: nat): (p: Pick)
    requires c.WellFormed() && i <= |c.list|
    ensures !p.Nothing? ==> i <= p.i < |c.list|
    ensures p.Due? ==> Waiting(c.At(p.i)) && c.At(p.i).due <= t
    ensures p.Later? ==> c.At(p.i).state == Ready && c.At(p.i).due > t
    ensures forall k :: i <= k < (if p.Nothing? then |c.list| else p.i) ==>
      if c.At(k).due > t then c.At(k).state != Ready else !Waiting(c.At(k))
    decreases |c.list| - i
  {
    if i == |c.list| then Nothing
    else if c.At(i).due > t then (if c.At(i).state == Ready then Later(i) else Scan(c, t, i + 1))
    else if Waiting(c.At(i)) then Due(i)
    else Scan(c, t, i + 1)
  }

  function SelectNextDue(c: Core, t: int, reserve: bool): (r: (Core, Option<Id>, int))
    requires c.WellFormed()
  {
    match Scan(c, t, 0)
    case Due(i) =>
      var b := c.At(i);
      (c.Set(c.list[i], b.(state := InProgress, due := NextDue(c.sync, t, b.interval))), Some(c.list[i]), t)
    case Later(i) =>
      (if reserve then c.Set(c.list[i], c.At(i).(state := Reserved)) else c, None, c.At(i).due)
    case Nothing => (c, None, -1)
  }

  // ----- relocation -----

  function IndexOf(list: seq<Id>, id: Id): (n: nat)
    ensures n <= |list| && (n < |list| ==> list[n] == id) && id !in list[..n]
  {
    if list == [] || list[0] == id then 0 else 1 + IndexOf(list[1..], id)
  }

  function Without(list: seq<Id>, i: nat): seq<Id>
    requires i < |list|
  {
    list[..i] + list[i + 1..]
  }

  /** First position from `i` on whose block is due later than `due`. */
  function Slot(list: seq<Id>, mem: map<Id, Block>, due: int, i: nat): (n: nat)
    requires i <= |list| && forall x :: x in list ==> x in mem
    ensures i <= n <= |list|
    ensures forall k :: i <= k < n ==> mem[list[k]].due <= due
    ensures n < |list| ==> mem[list[n]].due > due
    decreases |list| - i
  {
    if i == |list| || due < mem[list[i]].due then i else Slot(list, mem, due, i + 1)
  }

  function Inserted(list: seq<Id>, n: nat, id: Id): seq<Id>
    requires n <= |list|
  {
    list[..n] + [id] + list[n..]
  }

  /** The list after element `p` has moved behind every later block that is not due after `due`. */
  function Moved(list: seq<Id>, mem: map<Id, Block>, due: int, p: nat): seq<Id>
    requires p < |list| && forall x :: x in list ==> x in mem
  {
    var rest := Without(list, p);
    Inserted(rest, Slot(rest, mem, due, p), list[p])
  }

  function Relocate(c: Core, id: Id, now: int): (r: (Core, int))
    requires c.WellFormed() && id in c.mem && (c.mem[id].state == Created ==> id !in c.list)
  {
    var b := c.mem[id];
    if b.state == Deleted then (c.(mem := c.mem - {id}), 0)
    else if b.state == Created then
      var b1 := b.(due := FirstDue(c.sync, now, b.interval), state := Ready);
      (Core(c.sync, Inserted(c.list, Slot(c.list, c.mem, b1.due, 0), id), c.mem[id := b1]), 0)
    else
      var p := IndexOf(c.list, id);
      if p == |c.list| then (c, -1)
      else
        (Core(c.sync, Moved(c.list, c.mem, b.due, p), c.mem[id := b.(state := Ready)]), 0)
  }

  // ----- removal and reset -----

  function MetricIndex(c: Core, metricId: int, i: nat): (n: nat)
    requires c.WellFormed() && i <= |c.list|
    ensures i <= n <= |c.list|
    ensures n < |c.list| ==> c.At(n).metricId == metricId
    ensures forall k :: i <= k < n ==> c.At(k).metricId != metricId
    decreases |c.list| - i
  {
    if i == |c.list| || c.At(i).metricId == metricId then i else MetricIndex(c, metricId, i + 1)
  }

  function Remove(c: Core, metricId: int): Core
    requires c.WellFormed()
  {
    var n := MetricIndex(c, metricId, 0);
    if n == |c.list| then c
    else
      var id := c.list[n];
      Core(c.sync, Without(c.list, n),
           if c.mem[id].state == InProgress then c.mem[id := c.mem[id].(state := Deleted)] else c.mem - {id})
  }

  function Reset(c: Core, t: int): Core
    requires c.WellFormed()
  {
    c.(mem := map id | id in c.mem ::
         if id in c.list then c.mem[id].(state := Ready, due := FirstDue(c.sync, t, c.mem[id].interval)) else c.mem[id])
  }

  // ----- the list object -----

  method FindBlock(list: seq<Id>, id: Id) returns (cursor: nat)
    ensures cursor == IndexOf(list, id)
  {
    cursor := 0;
    while cursor < |list| && list[cursor] != id
      invariant 0 <= cursor <= |list|
      invariant IndexOf(list, id) == cursor + IndexOf(list[cursor..], id)
    {
      cursor := cursor + 1;
    }
  }

  method FindSlot(list: seq<Id>, mem: map<Id, Block>, due: int, from: nat) returns (cursor: nat)
    requires from <= |list| && forall x :: x in list ==> x in mem
    ensures cursor == Slot(list, mem, due, from)
  {
    cursor := from;
    while cursor < |list| && due >= mem[list[cursor]].due
      invariant from <= cursor <= |list|
      invariant Slot(list, mem, due, from) == Slot(list, mem, due, cursor)
    {
      cursor := cursor + 1;
    }
  }

  class MetricList {
    const synclevel: int
    var blocks: seq<Id>
    var mem: map<Id, Block>

    constructor (synclevel: int)
      ensures this.synclevel == synclevel && View() == Core(synclevel == 1, [], map[]) && View().WellFormed()
    {
      this.synclevel := synclevel;
      blocks, mem := [], map[];
    }

    function View(): Core
      reads this
    {
      Core(synclevel == 1, blocks, mem)
    }

    method MakeMB(metricId: int, interval: int, fresh_: Id, garbage: int) returns (mb: Option<Id>)
      requires View().WellFormed() && fresh_ !in mem && (synclevel == 1 ==> interval > 0)
      modifies this`mem
      ensures mb == if metricId == 0 then None else Some(fresh_)
      ensures mem == if metricId == 0 then old(mem) else old(mem)[fresh_ := Block(metricId, interval, garbage, Created)]
      ensures View().WellFormed()
    {
      mb := None;
      if metricId != 0 {
        mem := mem[fresh_ := Block(metricId, interval, garbage, Created)];
        mb := Some(fresh_);
      }
    }

    method ML_SelectNextDue(acttime: int, reserve: bool) returns (mblock: Option<Id>, nexttime: int)
      requires View().WellFormed()
      modifies this`mem
      ensures (View(), mblock, nexttime) == SelectNextDue(old(View()), acttime, reserve)
    {
      mblock, nexttime := None, -1;
      var i := 0;
      while i < |blocks|
        invariant 0 <= i <= |blocks| && View() == old(View()) && mblock.None? && nexttime == -1
        invariant Scan(View(), acttime, 0) == Scan(View(), acttime, i)
      {
        var id := blocks[i];
        if mem[id].due > acttime {
          if mem[id].state == Ready {
            nexttime := mem[id].due;
            if reserve {
              mem := mem[id := mem[id].(state := Reserved)];
            }
            return;
          }
        } else if mem[id].state == Ready || mem[id].state == Reserved {
          nexttime := acttime;
          mblock := Some(id);
          break;
        }
        i := i + 1;
      }
      if mblock.Some? {
        var b := mem[mblock.value];
        mem := mem[mblock.value := b.(
          state := InProgress, due := acttime + b.interval - (if synclevel == 1 then acttime % b.interval else 0))];
      }
    }

    /** `now` is the wallclock, read only for a first insertion. */
    method ML_Relocate(mblock: Id, now: int) returns (rc: int)
      requires View().WellFormed() && mblock in mem && (mem[mblock].state == Created ==> mblock !in blocks)
      modifies this`mem, this`blocks
      ensures (View(), rc) == Relocate(old(View()), mblock, now)
    {
      if mem[mblock].state == Deleted {
        mem := mem - {mblock};
        return 0;
      }
      var cursor := 0;
      if mem[mblock].state == Created {
        var b := mem[mblock];
        mem := mem[mblock := b.(due := if synclevel == 1 then now - now % b.interval + b.interval else 0)];
      } else {
        cursor := FindBlock(blocks, mblock);
        if cursor == |blocks| {
          return -1;
        }
        blocks := Without(blocks, cursor);
      }
      SlotIgnores(blocks, old(mem), mem, mblock, mem[mblock].due, cursor);
      Place(mblock, cursor);
      assert mem == old(mem)[mblock := mem[mblock]];
      return 0;
    }

    /** Links an unlinked block before the first block from `cursor` on that is due later. */
    method Place(mblock: Id, cursor: nat)
      requires mblock in mem && cursor <= |blocks| && forall x :: x in blocks ==> x in mem
      modifies this`mem, this`blocks
      ensures blocks == Inserted(old(blocks), Slot(old(blocks), old(mem), old(mem)[mblock].due, cursor), mblock)
      ensures mem == old(mem)[mblock := old(mem)[mblock].(state := Ready)]
    {
      var n := FindSlot(blocks, mem, mem[mblock].due, cursor);
      blocks := Inserted(blocks, n, mblock);
      mem := mem[mblock := mem[mblock].(state := Ready)];
    }

    method ML_Remove(id: int)
      requires View().WellFormed()
      modifies this`mem, this`blocks
      ensures View() == Remove(old(View()), id)
    {
      var n := 0;
      while n < |blocks| && mem[blocks[n]].metricId != id
        invariant 0 <= n <= |blocks|
        invariant MetricIndex(View(), id, 0) == MetricIndex(View(), id, n)
      {
        n := n + 1;
      }
      if n < |blocks| {
        var mb := blocks[n];
        blocks := Without(blocks, n);
        if mem[mb].state == InProgress {
          mem := mem[mb := mem[mb].(state := Deleted)];
        } else {
          mem := mem - {mb};
        }
      }
    }

    method ML_Reset(t: int)
      requires View().WellFormed()
      modifies this`mem
      ensures View() == Reset(old(View()), t)
    {
      var i := 0;
      while i < |blocks|
        invariant 0 <= i <= |blocks| && mem.Keys == old(mem).Keys
        invariant forall id :: id in mem ==> mem[id] == if id in blocks[..i] then Reset(old(View()), t).mem[id]
          else old(mem)[id]
      {
        var b := mem[blocks[i]];
        assert blocks[i] !in blocks[..i];
        mem := mem[blocks[i] := b.(
          state := Ready, due := if synclevel == 1 then t - t % b.interval + b.interval else 0)];
        i := i + 1;
      }
      assert blocks[..i] == blocks;
    }
  }

  /** The search for a slot does not look at the block being moved. */
  lemma {:induction false} SlotIgnores(list: seq<Id>, m: map<Id, Block>, n: map<Id, Block>, id: Id, due: int, i: nat)
    requires i <= |list| && id !in list && m.Keys == n.Keys
    requires forall k :: k in m && k != id ==> m[k] == n[k]
    requires forall x :: x in list ==> x in m
    ensures Slot(list, m, due, i) == Slot(list, n, due, i)
    decreases |list| - i
  {
    if i < |list| {
      SlotIgnores(list, m, n, id, due, i + 1);
    }
  }
}
