/** PageMapping of ftl/page_mapping.cc, updated in place and proved against FtlSteps. Every method
    reports the fault the source would panic with, or none. */
module PageMappings {
  import opened Outcomes
  import opened FtlState
  import opened FtlSteps
  import opened FtlInvariant
  import opened FtlWrite
  import opened FtlCollect
  import opened FtlRun
  import opened FlashBlocks

  /** The pool holds every physical block under its own index. */
  ghost predicate Indexed(g: Geometry, pool: seq<FlashBlock>) {
    && |pool| == g.total
    && forall i :: 0 <= i < g.total ==>
         pool[i].idx == i && pool[i].pages == g.pages && pool[i].units == g.units
  }

  /** The pool's objects are in these states. */
  ghost predicate Pooled(pool: seq<FlashBlock>, states: seq<Block>)
    reads pool
  {
    && |pool| == |states|
    && forall i :: 0 <= i < |pool| ==> pool[i].Valid() && pool[i].State() == states[i]
  }

  ghost predicate Bound(pool: seq<FlashBlock>, blocks: map<nat, FlashBlock>) {
    forall b :: b in blocks ==> b < |pool| && blocks[b] == pool[b]
  }

  ghost predicate Listed(pool: seq<FlashBlock>, objects: seq<FlashBlock>, indices: seq<nat>) {
    && |objects| == |indices|
    && forall i :: 0 <= i < |objects| ==> indices[i] < |pool| && objects[i] == pool[indices[i]]
  }

  lemma PooledAt(g: Geometry, pool: seq<FlashBlock>, states: seq<Block>, i: nat)
    requires Indexed(g, pool) && Pooled(pool, states) && i < g.total
    ensures pool[i].Valid() && |states| == g.total && pool[i].State() == states[i]
    ensures pool[i].idx == i && pool[i].pages == g.pages && pool[i].units == g.units
  {
  }

  lemma ListedAt(g: Geometry, pool: seq<FlashBlock>, objects: seq<FlashBlock>, indices: seq<nat>, i: nat)
    requires Indexed(g, pool) && Listed(pool, objects, indices) && i < |objects|
    ensures |indices| == |objects| && indices[i] < g.total == |pool| && objects[i] == pool[indices[i]]
    ensures objects[i].idx == indices[i]
  {
  }

  lemma Rebind(g: Geometry, pool: seq<FlashBlock>, blocks: map<nat, FlashBlock>, objects: seq<FlashBlock>,
      indices: seq<nat>, i: nat)
    requires Indexed(g, pool) && Bound(pool, blocks) && Listed(pool, objects, indices) && i < |objects|
    ensures Bound(pool, blocks[indices[i] := objects[i]])
    ensures Listed(pool, objects[..i] + objects[i + 1..], indices[..i] + indices[i + 1..])
  {
  }

  lemma ListedSize(pool: seq<FlashBlock>, objects: seq<FlashBlock>, indices: seq<nat>)
    requires Listed(pool, objects, indices)
    ensures |objects| == |indices|
  {
  }

  lemma BoundAt(g: Geometry, pool: seq<FlashBlock>, blocks: map<nat, FlashBlock>, b: nat)
    requires Indexed(g, pool) && Bound(pool, blocks) && b in blocks
    ensures b < g.total == |pool| && blocks[b] == pool[b]
  {
  }

  lemma Release(g: Geometry, pool: seq<FlashBlock>, blocks: map<nat, FlashBlock>,
                objects: seq<FlashBlock>, indices: seq<nat>, v: nat, i: nat)
    requires Indexed(g, pool) && Bound(pool, blocks) && Listed(pool, objects, indices) && v in blocks && i <= |objects|
    ensures Bound(pool, blocks - {v})
    ensures Listed(pool, objects[..i] + [blocks[v]] + objects[i..], indices[..i] + [v] + indices[i..])
  {
  }

  lemma ErasedWear(b: Block)
    ensures Erased(b).wear == b.wear + 1
  {
  }

  /** A candidate victim and its weight, the number of its valid units. */
  datatype Candidate = Candidate(block: nat, weight: nat)

  /** Distinct full blocks with their weights, lightest first. */
  ghost predicate Ranked(g: Geometry, f: Ftl, c: seq<Candidate>) {
    && Ordered(c)
    && (forall i :: 0 <= i < |c| ==> Weighed(g, f, c[i]))
  }

  ghost predicate Ordered(c: seq<Candidate>) {
    forall i, j :: 0 <= i < j < |c| ==> c[i].block != c[j].block && c[i].weight <= c[j].weight
  }

  lemma OrderedInsert(c: seq<Candidate>, k: nat, x: Candidate)
    requires Ordered(c) && k <= |c| && (forall i :: 0 <= i < |c| ==> c[i].block != x.block)
    requires (forall i :: 0 <= i < k ==> c[i].weight <= x.weight) && (k < |c| ==> x.weight <= c[k].weight)
    ensures Ordered(Inserted(c, k, x))
  {
    var c' := Inserted(c, k, x);
    forall i, j | 0 <= i < j < |c'|
      ensures c'[i].block != c'[j].block && c'[i].weight <= c'[j].weight
    {
      var a, b := if i < k then i else i - 1, if j < k then j else j - 1;
      assert i != k ==> c'[i] == c[a];
      assert j != k ==> c'[j] == c[b];
      assert c'[k] == x;
    }
  }

  ghost predicate Weighed(g: Geometry, f: Ftl, x: Candidate) {
    x.block in FullBlocks(g, f) && x.block < |f.pool| && x.weight == RawCount(f.pool[x.block])
  }

  function Rank(c: seq<Candidate>, weight: nat): (i: nat)
    ensures i <= |c|
    ensures forall k :: 0 <= k < i ==> c[k].weight <= weight
    ensures i < |c| ==> weight < c[i].weight
  {
    if c == [] then 0
    else if c[0].weight > weight then 0
    else 1 + Rank(c[1..], weight)
  }

  lemma RankedInsert(g: Geometry, f: Ftl, c: seq<Candidate>, x: Candidate)
    requires Ranked(g, f, c) && Weighed(g, f, x)
    requires forall i :: 0 <= i < |c| ==> c[i].block != x.block
    ensures Ranked(g, f, Inserted(c, Rank(c, x.weight), x))
  {
    hide Weighed, Rank, Ordered;
    OrderedInsert(c, Rank(c, x.weight), x);
  }

  ghost function Names(c: seq<Candidate>): set<nat> {
    set i | 0 <= i < |c| :: c[i].block
  }

  lemma NamesInserted(c: seq<Candidate>, k: nat, x: Candidate)
    requires k <= |c|
    ensures Names(Inserted(c, k, x)) == Names(c) + {x.block}
  {
    var c' := Inserted(c, k, x);
    forall b | b in Names(c) ensures b in Names(c') {
      var j :| 0 <= j < |c| && c[j].block == b;
      assert c'[if j < k then j else j + 1] == c[j];
    }
    assert c'[k] == x;
  }

  /** All full blocks except those still to be visited are ranked. */
  ghost predicate RankedBut(g: Geometry, f: Ftl, c: seq<Candidate>, keys: set<nat>) {
    Ranked(g, f, c) && Names(c) !! keys && FullBlocks(g, f) - keys <= Names(c)
  }

  lemma RankOne(g: Geometry, f: Ftl, c: seq<Candidate>, keys: set<nat>, b: nat)
    requires RankedBut(g, f, c, keys) && b in keys && b < |f.pool|
    ensures b !in FullBlocks(g, f) ==> RankedBut(g, f, c, keys - {b})
    ensures b in FullBlocks(g, f) ==>
              var w := RawCount(f.pool[b]);
              RankedBut(g, f, Inserted(c, Rank(c, w), Candidate(b, w)), keys - {b})
  {
    hide FullBlocks, RawCount, Rank;
    if b in FullBlocks(g, f) {
      var w := RawCount(f.pool[b]);
      assert forall i :: 0 <= i < |c| ==> c[i].block in Names(c);
      RankedInsert(g, f, c, Candidate(b, w));
      NamesInserted(c, Rank(c, w), Candidate(b, w));
    }
  }

  /** The lightest candidates, as many as asked for, are a greedy choice. */
  lemma RankedIsGreedy(g: Geometry, f: Ftl, c: seq<Candidate>, count: nat, victims: seq<nat>)
    requires RankedBut(g, f, c, {})
    requires |victims| == (if count <= |c| then count else |c|)
    requires forall i :: 0 <= i < |victims| ==> victims[i] == c[i].block
    ensures GreedyChoice(g, f, count, victims)
  {
    forall v, b | v in victims && b in FullBlocks(g, f) && b !in victims
      ensures RawCount(f.pool[v]) <= RawCount(f.pool[b])
    {
      var i :| 0 <= i < |victims| && victims[i] == v;
      assert b in FullBlocks(g, f) - {};
      assert b in Names(c);
      var j :| 0 <= j < |c| && c[j].block == b;
      assert j >= |victims|;
    }
    if |victims| != count {
      forall b | b in FullBlocks(g, f) ensures b in victims {
        assert b in FullBlocks(g, f) - {};
        assert b in Names(c);
        var j :| 0 <= j < |c| && c[j].block == b;
        assert victims[j] == b;
      }
    }
  }

  function Power(x: nat, square: bool): nat {
    if square then x * x else x
  }

  /** The erase counts (or their squares) of the listed blocks. */
  function ListWear(pool: seq<Block>, s: seq<nat>, square: bool): nat
    requires forall i :: 0 <= i < |s| ==> s[i] < |pool|
  {
    if s == [] then 0 else ListWear(pool, s[..|s| - 1], square) + Power(pool[s[|s| - 1]].wear, square)
  }

  /** The erase counts (or their squares) of the in-use blocks below n. */
  function UsedWear(f: Ftl, n: nat, square: bool): nat
    requires n <= |f.pool|
  {
    if n == 0 then 0
    else UsedWear(f, n - 1, square) + if n - 1 in f.used then Power(f.pool[n - 1].wear, square) else 0
  }

  /** In a list sorted by wear, the blocks before an unworn one are all unworn. */
  lemma {:induction false} UnwornPrefix(pool: seq<Block>, s: seq<nat>, i: nat, square: bool)
    requires (forall k :: 0 <= k < |s| ==> s[k] < |pool|) && SortedByWear(pool, s)
    requires i < |s| && pool[s[i]].wear == 0
    ensures ListWear(pool, s[..i + 1], square) == 0
  {
    assert s[..i + 1][..i] == s[..i];
    if i > 0 { UnwornPrefix(pool, s, i - 1, square); }
  }

  lemma FreeSorted(g: Geometry, f: Ftl)
    requires Inv(g, f)
    ensures (forall k :: 0 <= k < |f.free| ==> f.free[k] < |f.pool|) && SortedByWear(f.pool, f.free)
  {
  }

  /** The wear from position i on is summed, the wear before it is not. */
  ghost predicate Summed(pool: seq<Block>, s: seq<nat>, i: nat, total: nat, squares: nat) {
    && (forall k :: 0 <= k < |s| ==> s[k] < |pool|) && i <= |s|
    && total + ListWear(pool, s[..i], false) == ListWear(pool, s, false)
    && squares + ListWear(pool, s[..i], true) == ListWear(pool, s, true)
  }

  lemma SummedStep(pool: seq<Block>, s: seq<nat>, i: nat, total: nat, squares: nat)
    requires Summed(pool, s, i, total, squares) && 0 < i
    ensures var w := pool[s[i - 1]].wear;
            Summed(pool, s, i - 1, total + Power(w, false), squares + Power(w, true))
  {
    assert s[..i][..i - 1] == s[..i - 1];
  }

  /** The sums are complete when nothing worn is left, and empty at the start. */
  lemma SummedBounds(pool: seq<Block>, s: seq<nat>, i: nat, total: nat, squares: nat)
    requires (forall k :: 0 <= k < |s| ==> s[k] < |pool|) && SortedByWear(pool, s) && i <= |s|
    ensures Summed(pool, s, |s|, 0, 0)
    ensures Summed(pool, s, i, total, squares) && (i == 0 || pool[s[i - 1]].wear == 0) ==>
              total == ListWear(pool, s, false) && squares == ListWear(pool, s, true)
  {
    assert s[..|s|] == s;
    if 0 < i && pool[s[i - 1]].wear == 0 {
      UnwornPrefix(pool, s, i - 1, false);
      UnwornPrefix(pool, s, i - 1, true);
    }
  }

  class PageMapping {
    const g: Geometry
    const policy: Policy
    var table: map<nat, seq<Ppa>>
    var blocks: map<nat, FlashBlock>
    var freeBlocks: seq<FlashBlock>
    var nFreeBlocks: nat
    var lastFreeBlock: seq<nat>
    var lastFreeBlockIOMap: seq<bool>
    var lastFreeBlockIndex: nat
    var reclaimMore: bool
    /** Every physical block, by index, whether in use, free or retired. */
    ghost const pool: seq<FlashBlock>
    /** The state value this object stands for. */
    ghost var f: Ftl

    ghost predicate Valid()
      reads this, pool
    {
      && g.Valid()
      && Indexed(g, pool)
      && Pooled(pool, f.pool)
      && blocks.Keys == f.used && Bound(pool, blocks)
      && nFreeBlocks == |freeBlocks| && Listed(pool, freeBlocks, f.free)
      && table == f.table
      && lastFreeBlock == f.active && lastFreeBlockIndex == f.cursor && lastFreeBlockIOMap == f.ioMap
      && reclaimMore == f.reclaimMore
    }

    // ----- free and active blocks --------------------------------------------------------------------

    /** The search of getFreeBlock. */
    method FindFree(slot: nat) returns (i: nat)
      requires Valid() && freeBlocks != []
      ensures |f.free| == |freeBlocks| && i == PickFree(g.slots, f.free, slot, 0)
    {
      i := 0;
      while i < |freeBlocks| && freeBlocks[i].idx % g.slots != slot
        invariant 0 <= i <= |freeBlocks|
        invariant PickFree(g.slots, f.free, slot, i) == PickFree(g.slots, f.free, slot, 0)
      {
        i := i + 1;
      }
      if i == |freeBlocks| { i := 0; }
    }

    /** getFreeBlock: moves a block from the free list to the blocks in use. */
    method GetFreeBlock(slot: nat) returns (fault: Option<Fault>, b: nat)
      requires Valid() && slot < |lastFreeBlock|
      modifies this`blocks, this`freeBlocks, this`nFreeBlocks, this`f
      ensures match TakeFree(g, old(f), slot)
              case Panic(why) => fault == Some(why)
              case Ok(f') =>
                && fault == None && Valid() && b in blocks
                && f == f'.(active := lastFreeBlock) && f'.active == lastFreeBlock[slot := b]
    {
      hide Indexed, Pooled, Bound, Listed, PickFree;
      ListedSize(pool, freeBlocks, f.free);
      if slot >= g.slots { return Some(OutOfRange), 0; }
      if nFreeBlocks == 0 { return Some(NoFreeBlock), 0; }
      var i := FindFree(slot);
      var blk := freeBlocks[i];
      b := blk.idx;
      ListedAt(g, pool, freeBlocks, f.free, i);
      if b in blocks { return Some(Corrupted), b; }
      Rebind(g, pool, blocks, freeBlocks, f.free, i);
      blocks := blocks[b := blk];
      freeBlocks := freeBlocks[..i] + freeBlocks[i + 1..];
      nFreeBlocks := nFreeBlocks - 1;
      f := f.(used := f.used + {b}, free := f.free[..i] + f.free[i + 1..]);
      return None, b;
    }

    /** Whether block d of the blocks in use is full. */
    method IsFull(d: nat) returns (full: bool)
      requires Valid() && d in blocks
      ensures d < |f.pool| && full == Full(g, f.pool[d])
    {
      PooledAt(g, pool, f.pool, d);
      var fill := blocks[d].GetNextWritePageIndex();
      full := fill == g.pages;
    }

    /** The rotation at the head of getLastFreeBlock. */
    method RotateSlots(ioMap: seq<bool>)
      requires Valid()
      modifies this`lastFreeBlockIOMap, this`lastFreeBlockIndex, this`f
      ensures Valid() && f == Rotate(g, old(f), ioMap)
      ensures old(lastFreeBlockIndex) < g.slots ==>
          Turned(g, old(lastFreeBlockIndex), old(lastFreeBlockIOMap), ioMap, lastFreeBlockIndex, lastFreeBlockIOMap)
    {
      hide Indexed, Pooled, Bound, Listed, Turned;
      if lastFreeBlockIndex < g.slots { RotateTurns(g, f, ioMap); }
      var common := exists u :: 0 <= u < |lastFreeBlockIOMap| && u < |ioMap| && lastFreeBlockIOMap[u] && ioMap[u];
      if !g.tweak || common {
        lastFreeBlockIndex := lastFreeBlockIndex + 1;
        if lastFreeBlockIndex == g.slots { lastFreeBlockIndex := 0; }
        lastFreeBlockIOMap := ioMap;
      } else {
        lastFreeBlockIOMap := OrBits(lastFreeBlockIOMap, ioMap);
      }
      f := Rotate(g, f, ioMap);
    }

    /** getLastFreeBlock: rotates the active slots and replaces a full active block. */
    method GetLastFreeBlock(ioMap: seq<bool>) returns (fault: Option<Fault>, d: nat)
      requires Valid()
      modifies this`blocks, this`freeBlocks, this`nFreeBlocks, this`lastFreeBlock, this`lastFreeBlockIOMap,
               this`lastFreeBlockIndex, this`reclaimMore, this`f
      ensures match Acquire(g, old(f), ioMap)
              case Panic(why) => fault == Some(why)
              case Ok(f') => fault == None && Valid() && f == f' && d == f.active[f.cursor] && d in blocks
      ensures old(lastFreeBlockIndex) < g.slots ==>
          Turned(g, old(lastFreeBlockIndex), old(lastFreeBlockIOMap), ioMap, lastFreeBlockIndex, lastFreeBlockIOMap)
    {
      hide Indexed, Pooled, Bound, Listed, TakeFree, Rotate, Full, Turned;
      RotateSlots(ioMap);
      d := 0;
      if lastFreeBlockIndex >= |lastFreeBlock| { return Some(OutOfRange), d; }
      d := lastFreeBlock[lastFreeBlockIndex];
      if d !in blocks { return Some(Corrupted), d; }
      var full := IsFull(d);
      if full {
        fault, d := GetFreeBlock(lastFreeBlockIndex);
        if fault.Some? { return; }
        lastFreeBlock := lastFreeBlock[lastFreeBlockIndex := d];
        reclaimMore := true;
        f := f.(active := lastFreeBlock, reclaimMore := true);
      }
      return None, d;
    }
  
    // ----- single units --------------------------------------------------------------------------------

    /** Block::invalidate on a block in use. */
    method InvalidateUnit(b: nat, p: nat, u: nat) returns (fault: Option<Fault>)
      requires Valid()
      modifies this`f, pool
      ensures match InvalidateAt(old(f), b, p, u)
              case Panic(why) => fault == Some(why)
              case Ok(f') => fault == None && Valid() && f == f'
    {
      hide Bound, Listed;
      if b !in blocks { return Some(BlockNotInUse); }
      BoundAt(g, pool, blocks, b);
      if p >= g.pages || u >= g.units { return Some(OutOfRange); }
      blocks[b].Invalidate(p, u);
      f := f.(pool := f.pool[b := Invalidated(f.pool[b], p, u)]);
      return None;
    }

    /** Block::write at the unit's write pointer, and the update of the mapping table. */
    method ProgramUnit(d: nat, lpn: nat, u: nat, ghost image: Image) returns (fault: Option<Fault>)
      requires Valid() && d in blocks
      modifies this`table, this`f, pool
      ensures match Program(old(f), d, lpn, u, image)
              case Panic(why) => fault == Some(why)
              case Ok(f') => fault == None && Valid() && f == f'
    {
      hide Bound, Listed, Programmed;
      if lpn !in table { return Some(InvalidMapping); }
      BoundAt(g, pool, blocks, d);
      if u >= g.units || u >= |table[lpn]| { return Some(OutOfRange); }
      var p := blocks[d].next[u];
      ghost var programmed := Programmed(f.pool[d], p, lpn, u, image);
      fault := blocks[d].Write(p, lpn, u, image);
      if fault.Some? { return; }
      var entry: seq<Ppa> := table[lpn][u := Ppa(d, p)];
      table := table[lpn := entry];
      f := f.(pool := f.pool[d := programmed.value], table := table);
    }
  
    // ----- host requests -------------------------------------------------------------------------------

    /** The invalidation loop of writeInternal. */
    method InvalidateSelected(lpn: nat, flags: seq<bool>) returns (fault: Option<Fault>)
      requires Valid()
      modifies this`f, pool
      ensures match InvalidateFrom(g, old(f), lpn, flags, 0)
              case Panic(why) => fault == Some(why)
              case Ok(f') => fault == None && Valid() && f == f'
    {
      hide Indexed, Pooled, Bound, Listed, InvalidateAt;
      for u := 0 to g.Mapped()
        invariant Valid()
        invariant InvalidateFrom(g, f, lpn, flags, u) == InvalidateFrom(g, old(f), lpn, flags, 0)
      {
        if g.Selects(flags, u) {
          if lpn !in table || u >= |table[lpn]| { return Some(OutOfRange); }
          var e := table[lpn][u];
          if InRange(g, e) {
            fault := InvalidateUnit(e.block, e.page, u);
            if fault.Some? { return; }
          }
        }
      }
      return None;
    }

    /** The write loop of writeInternal. */
    method ProgramSelected(d: nat, lpn: nat, flags: seq<bool>, ghost data: seq<Data>) returns (fault: Option<Fault>)
      requires Valid() && d in blocks && |flags| == |data| == g.units
      modifies this`table, this`f, pool
      ensures match ProgramFrom(g, old(f), d, lpn, flags, data, 0)
              case Panic(why) => fault == Some(why)
              case Ok(f') => fault == None && Valid() && f == f'
    {
      hide Indexed, Pooled, Bound, Listed, Program, Merged;
      for u := 0 to g.Mapped()
        invariant Valid() && d in blocks
        invariant ProgramFrom(g, f, d, lpn, flags, data, u) == ProgramFrom(g, old(f), d, lpn, flags, data, 0)
      {
        if g.Selects(flags, u) {
          fault := ProgramUnit(d, lpn, u, Merged(g, f, lpn, u, flags, data));
          if fault.Some? { return; }
        }
      }
      return None;
    }

    /** writeInternal up to the garbage-collection test. */
    method WriteInternal(lpn: nat, flags: seq<bool>, ghost data: seq<Data>) returns (fault: Option<Fault>)
      requires Valid() && |flags| == |data| == g.units
      modifies this, pool
      ensures match Write(g, old(f), lpn, flags, data)
              case Panic(why) => fault == Some(why)
              case Ok(f') => fault == None && Valid() && f == f'
    {
      hide Indexed, Pooled, Bound, Listed, InvalidateFrom, ProgramFrom;
      if lpn in table {
        fault := InvalidateSelected(lpn, flags);
        if fault.Some? { return; }
      } else {
        table := table[lpn := seq(g.Mapped(), _ => g.Unmapped())];
        f := Enter(g, f, lpn);
      }
      var d;
      fault, d := GetLastFreeBlock(flags);
      if fault.Some? { return; }
      fault := ProgramSelected(d, lpn, flags, data);
    }

    /** trimInternal */
    method TrimInternal(lpn: nat) returns (fault: Option<Fault>)
      requires Valid()
      modifies this, pool
      ensures match Trim(g, old(f), lpn)
              case Panic(why) => fault == Some(why)
              case Ok(f') => fault == None && Valid() && f == f'
    {
      hide Indexed, Pooled, Bound, Listed, InvalidateAt;
      if lpn !in table { return None; }
      for u := 0 to g.Mapped()
        invariant Valid() && lpn in table
        invariant TrimFrom(g, f, lpn, u) == TrimFrom(g, old(f), lpn, 0)
      {
        if u >= |table[lpn]| { return Some(OutOfRange); }
        var e := table[lpn][u];
        fault := InvalidateUnit(e.block, e.page, u);
        if fault.Some? { return; }
      }
      table := table - {lpn};
      f := f.(table := table);
      return None;
    }
  
    // ----- garbage collection --------------------------------------------------------------------------

    /** The unit loop of doGarbageCollection. */
    method MoveUnits(v: nat, p: nat, lpns: seq<nat>, bits: seq<bool>, d: nat, ghost row: seq<Cell>)
      returns (fault: Option<Fault>)
      requires Valid() && d in blocks && |lpns| == |row| && forall u :: 0 <= u < |row| ==> lpns[u] == row[u].lpn
      modifies this`table, this`f, pool
      ensures match MoveFrom(g, old(f), v, p, row, bits, d, 0)
              case Panic(why) => fault == Some(why)
              case Ok(f') => fault == None && Valid() && f == f'
    {
      hide Indexed, Pooled, Bound, Listed, InvalidateAt, Program;
      for u := 0 to g.Mapped()
        invariant Valid() && d in blocks
        invariant MoveFrom(g, f, v, p, row, bits, d, u) == MoveFrom(g, old(f), v, p, row, bits, d, 0)
      {
        if u >= |bits| || u >= |lpns| { return Some(OutOfRange); }
        if bits[u] {
          fault := InvalidateUnit(v, p, u);
          if fault.Some? { return; }
          fault := ProgramUnit(d, lpns[u], u, row[u].image);
          if fault.Some? { return; }
        }
      }
      return None;
    }

    /** One page of one victim. */
    method CopyVictimPage(v: nat, p: nat) returns (fault: Option<Fault>)
      requires Valid() && p < g.pages
      modifies this, pool
      ensures match CopyPage(g, old(f), v, p)
              case Panic(why) => fault == Some(why)
              case Ok(f') => fault == None && Valid() && f == f'
    {
      hide Indexed, Pooled, Bound, Listed, Acquire, MoveFrom, PageMap;
      if v !in blocks { return Some(NoSuchBlock); }
      BoundAt(g, pool, blocks, v);
      PooledAt(g, pool, f.pool, v);
      ghost var row := f.pool[v].cells[p];
      var bits, lpns, live := blocks[v].GetPageInfo(g, p);
      if !live { return None; }
      if !g.tweak { bits := seq(g.units, _ => true); }
      var d;
      fault, d := GetLastFreeBlock(bits);
      if fault.Some? { return; }
      fault := MoveUnits(v, p, lpns, bits, d, row);
    }

    /** The reverse search of eraseInternal. */
    method FindInsert(wear: nat) returns (i: nat)
      requires Valid()
      ensures |f.free| == |freeBlocks| && (forall k :: 0 <= k < |f.free| ==> f.free[k] < |f.pool|)
      ensures i == InsertAt(f.pool, f.free, wear, |f.free|)
    {
      i := |freeBlocks|;
      while i > 0 && freeBlocks[i - 1].eraseCount > wear
        invariant 0 <= i <= |freeBlocks|
        invariant InsertAt(f.pool, f.free, wear, i) == InsertAt(f.pool, f.free, wear, |f.free|)
      {
        i := i - 1;
      }
    }

    /** Block::erase on a block in use. */
    method EraseFlash(v: nat)
      requires Valid() && v in blocks
      modifies this`f, pool
      ensures Valid() && v < |old(f).pool| && f == old(f).(pool := old(f).pool[v := Erased(old(f).pool[v])])
    {
      hide Bound, Listed, Erased;
      BoundAt(g, pool, blocks, v);
      blocks[v].Erase();
      f := f.(pool := f.pool[v := Erased(f.pool[v])]);
    }

    /** Whether block v has a page with a valid unit, and its erase count. */
    method Inspect(v: nat) returns (holdsValid: bool, wear: nat)
      requires Valid() && v in blocks
      ensures v < |f.pool| && holdsValid == HoldsValid(f.pool[v]) && wear == f.pool[v].wear
    {
      PooledAt(g, pool, f.pool, v);
      var live := blocks[v].GetValidPageCount();
      NoLivePages(f.pool[v].cells);
      holdsValid := live != 0;
      wear := blocks[v].eraseCount;
    }

    /** eraseInternal: the block returns to the free list, or is retired when worn out. */
    method EraseInternal(v: nat) returns (fault: Option<Fault>)
      requires Valid()
      modifies this, pool
      ensures match EraseBlock(g, old(f), v)
              case Panic(why) => fault == Some(why)
              case Ok(f') => fault == None && Valid() && f == f'
    {
      hide Indexed, Pooled, Bound, Listed, InsertAt, HoldsValid, Erased;
      if v !in blocks { return Some(NoSuchBlock); }
      var holdsValid, wear := Inspect(v);
      var i := FindInsert(wear + 1);
      if holdsValid { return Some(VictimHoldsValidPages); }
      ErasedWear(f.pool[v]);
      EraseFlash(v);
      Release(g, pool, blocks, freeBlocks, f.free, v, i);
      if wear + 1 < g.worn {
        if |freeBlocks| == 0 { return Some(EmptyFreeList); }
        ReturnToFree(v, i);
      } else {
        blocks := blocks - {v};
        f := f.(used := f.used - {v});
      }
      return None;
    }

    /** The insertion of an erased block into the free list. */
    method ReturnToFree(v: nat, i: nat)
      requires Valid() && v in blocks && i <= |freeBlocks|
      modifies this`blocks, this`freeBlocks, this`nFreeBlocks, this`f
      ensures Valid() && |old(f).free| == |old(freeBlocks)|
      ensures f == old(f).(used := old(f).used - {v}, free := old(f).free[..i] + [v] + old(f).free[i..])
    {
      assert |f.free| == |freeBlocks|;
      Release(g, pool, blocks, freeBlocks, f.free, v, i);
      hide Indexed, Pooled, Bound, Listed;
      freeBlocks := freeBlocks[..i] + [blocks[v]] + freeBlocks[i..];
      nFreeBlocks := nFreeBlocks + 1;
      blocks := blocks - {v};
      f := f.(used := f.used - {v}, free := f.free[..i] + [v] + f.free[i..]);
    }

    /** doGarbageCollection */
    method DoGarbageCollection(victims: seq<nat>) returns (fault: Option<Fault>)
      requires Valid()
      modifies this, pool
      ensures match Collect(g, old(f), victims)
              case Panic(why) => fault == Some(why)
              case Ok(f') => fault == None && Valid() && f == f'
    {
      hide Indexed, Pooled, Bound, Listed, CopyPage, EraseBlock;
      for i := 0 to |victims|
        invariant Valid()
        invariant CopyVictims(g, f, victims, i) == CopyVictims(g, old(f), victims, 0)
      {
        ghost var f0 := f;
        for p := 0 to g.pages
          invariant Valid()
          invariant CopyBlockFrom(g, f, victims[i], p) == CopyBlockFrom(g, f0, victims[i], 0)
        {
          fault := CopyVictimPage(victims[i], p);
          if fault.Some? { return; }
        }
      }
      ghost var f1 := f;
      for i := 0 to |victims|
        invariant Valid()
        invariant EraseVictims(g, f, victims, i) == EraseVictims(g, f1, victims, 0)
      {
        fault := EraseInternal(victims[i]);
        if fault.Some? { return; }
      }
      return None;
    }
  
    // ----- victim selection ----------------------------------------------------------------------------

    method Weigh(b: nat) returns (full: bool, weight: nat)
      requires Valid() && b in blocks
      ensures b < |f.pool| && full == (b in FullBlocks(g, f)) && weight == RawCount(f.pool[b])
    {
      full := IsFull(b);
      PooledAt(g, pool, f.pool, b);
      weight := blocks[b].GetValidPageCountRaw();
    }

    /** calculateVictimWeight and the sort by weight. The blocks are visited in no particular order. */
    method RankCandidates() returns (ranked: seq<Candidate>)
      requires Valid()
      ensures RankedBut(g, f, ranked, {})
    {
      ranked := [];
      var keys := blocks.Keys;
      assert RankedBut(g, f, ranked, keys);
      hide Indexed, Pooled, Bound, Listed, RawCount, FullBlocks, RankedBut, Rank;
      while keys != {}
        invariant keys <= blocks.Keys && RankedBut(g, f, ranked, keys)
        decreases |keys|
      {
        var b :| b in keys;
        var full, weight := Weigh(b);
        RankOne(g, f, ranked, keys, b);
        keys := keys - {b};
        if full { ranked := Inserted(ranked, Rank(ranked, weight), Candidate(b, weight)); }
      }
    }

    /** selectVictimBlock with the greedy policy. */
    method SelectVictimBlock() returns (victims: seq<nat>)
      requires Valid()
      modifies this`reclaimMore, this`f
      ensures Valid() && f == old(f).(reclaimMore := false)
      ensures GreedyChoice(g, old(f), ReclaimCount(g, old(f), policy), victims)
    {
      hide Indexed, Pooled, Bound, Listed, FullBlocks, GoalCount;
      ListedSize(pool, freeBlocks, f.free);
      var count := GoalCount(g.total, nFreeBlocks, policy.goal);
      var ranked := RankCandidates();
      if reclaimMore { count := count + g.slots; }
      var n := if count <= |ranked| then count else |ranked|;
      victims := seq(n, i requires 0 <= i < n <= |ranked| => ranked[i].block);
      RankedIsGreedy(g, f, ranked, count, victims);
      hide GreedyChoice, Ranked;
      reclaimMore := false;
      f := f.(reclaimMore := false);
    }
  
    // ----- the public operations -----------------------------------------------------------------------

    /** PageMapping::write, with the collection that writeInternal starts when blocks run low. The host
        sees its data and nothing else changes; the victims are a greedy choice. */
    method HostWriteRequest(lpn: nat, flags: seq<bool>, ghost data: seq<Data>)
      returns (fault: Option<Fault>, victims: seq<nat>)
      requires Valid() && Inv(g, f) && |flags| == |data| == g.units
      modifies this, pool
      ensures Legal(g, policy, old(f), WriteOp(lpn, flags, data, victims))
      ensures match Step(g, policy, old(f), WriteOp(lpn, flags, data, victims))
              case Panic(why) => fault == Some(why)
              case Ok(f') => fault == None && Valid() && f == f'
      ensures Truthful(g, policy, old(f), WriteOp(lpn, flags, data, victims)) ==>
                if fault.Some? then fault.value in ReachableFaults
                else Inv(g, f) && View(g, f) == HostStep(g.units, old(View(g, f)), WriteOp(lpn, flags, data, victims))
    {
      hide Indexed, Pooled, Bound, Listed, Inv, View, Write, Collect, GreedyChoice, Truthful;
      victims := [];
      if !(true in flags) {
        ghost var idle := WriteOp(lpn, flags, data, victims);
        if Truthful(g, policy, f, idle) { StepRefines(g, policy, f, idle); }
        return None, victims;
      }
      ghost var f0 := f;
      fault := WriteInternal(lpn, flags, data);
      if fault == None {
        ListedSize(pool, freeBlocks, f.free);
        if nFreeBlocks as real / g.total as real < policy.threshold {
          victims := SelectVictimBlock();
          fault := DoGarbageCollection(victims);
        }
      }
      ghost var op := WriteOp(lpn, flags, data, victims);
      if Truthful(g, policy, f0, op) { StepRefines(g, policy, f0, op); }
    }

    /** PageMapping::trim */
    method HostTrimRequest(lpn: nat) returns (fault: Option<Fault>)
      requires Valid() && Inv(g, f)
      modifies this, pool
      ensures fault.Some? <==> PartlyMapped(g, old(f), lpn, 0)
      ensures fault == None ==> Valid() && Inv(g, f) && View(g, f) == old(View(g, f)) - {lpn}
    {
      hide Indexed, Pooled, Bound, Listed, Inv, View, Trim;
      TrimIsHostTrim(g, f, lpn);
      fault := TrimInternal(lpn);
    }

    /** The read of unit u: from a block in use, where the data is valid and carries the LPN. */
    ghost predicate ReadsLive(lpn: nat, flags: seq<bool>, u: nat, e: Ppa)
      reads this
    {
      && g.Selects(flags, u) && lpn in table && u < |table[lpn]| && e == table[lpn][u]
      && e.block in blocks
      && At(f.pool, e.block, e.page, u).valid && At(f.pool, e.block, e.page, u).lpn == lpn
    }

    /** readInternal: the flash sources issued for the selected units of an LPN. Every selected unit that
        is mapped is read once, in order, and live. */
    method ReadInternal(lpn: nat, flags: seq<bool>) returns (fault: Option<Fault>, units: seq<nat>, sources: seq<Ppa>)
      requires Valid() && Inv(g, f)
      ensures fault == None && |sources| == |units|
      ensures forall i, j :: 0 <= i < j < |units| ==> units[i] < units[j]
      ensures forall i :: 0 <= i < |units| ==> ReadsLive(lpn, flags, units[i], sources[i])
      ensures lpn in table ==> |table[lpn]| == g.Mapped()
      ensures forall u :: lpn in table && 0 <= u < g.Mapped() && g.Selects(flags, u) &&
                          table[lpn][u] != g.Unmapped() ==>
                u in units
    {
      hide Indexed, Pooled, Bound, Listed, Partition, Backward;
      units, sources := [], [];
      if lpn in table {
        for u := 0 to g.Mapped()
          invariant |sources| == |units|
          invariant forall i, j :: 0 <= i < j < |units| ==> units[i] < units[j]
          invariant forall i :: 0 <= i < |units| ==> units[i] < u && ReadsLive(lpn, flags, units[i], sources[i])
          invariant forall i :: 0 <= i < u && g.Selects(flags, i) && table[lpn][i] != g.Unmapped() ==> i in units
        {
          if g.Selects(flags, u) {
            var e := table[lpn][u];
            if InRange(g, e) {
              if e.block !in blocks { return Some(BlockNotInUse), units, sources; }
              units, sources := units + [u], sources + [e];
            }
          }
        }
      }
      fault := None;
    }
  
    // ----- wear levelling ------------------------------------------------------------------------------

    method WearOf(i: nat) returns (inUse: bool, wear: nat)
      requires Valid() && i < g.total
      ensures |f.pool| == g.total && inUse == (i in f.used) && (inUse ==> wear == f.pool[i].wear)
    {
      PooledAt(g, pool, f.pool, i);
      inUse, wear := i in blocks, 0;
      if inUse {
        BoundAt(g, pool, blocks, i);
        wear := blocks[i].eraseCount;
      }
    }

    method WearOfFree(i: nat) returns (wear: nat)
      requires Valid() && i < |freeBlocks|
      ensures |f.free| == |freeBlocks| && f.free[i] < |f.pool| && wear == f.pool[f.free[i]].wear
    {
      ListedAt(g, pool, freeBlocks, f.free, i);
      PooledAt(g, pool, f.pool, f.free[i]);
      wear := freeBlocks[i].eraseCount;
    }

    /** The erase counts of the blocks in use, and their squares. */
    method SumUsed() returns (total: nat, squares: nat)
      requires Valid()
      ensures |f.pool| == g.total && total == UsedWear(f, g.total, false) && squares == UsedWear(f, g.total, true)
    {
      assert |f.pool| == g.total;
      hide Indexed, Pooled, Bound, Listed;
      total, squares := 0, 0;
      for i := 0 to g.total
        invariant total == UsedWear(f, i, false) && squares == UsedWear(f, i, true)
      {
        var inUse, wear := WearOf(i);
        if inUse { total, squares := total + Power(wear, false), squares + Power(wear, true); }
      }
    }

    /** The erase counts of the free blocks, and their squares; the scan runs from the back and stops at
        the first unworn block. */
    method SumFree() returns (total: nat, squares: nat)
      requires Valid() && Inv(g, f)
      ensures total == ListWear(f.pool, f.free, false) && squares == ListWear(f.pool, f.free, true)
    {
      hide Indexed, Pooled, Bound, Listed, Inv, SortedByWear, Power, ListWear, Summed;
      ghost var states, list := f.pool, f.free;
      FreeSorted(g, f);
      ListedSize(pool, freeBlocks, f.free);
      SummedBounds(states, list, |list|, 0, 0);
      total, squares := 0, 0;
      var i := |freeBlocks|;
      while i > 0
        invariant 0 <= i <= |freeBlocks| && Summed(states, list, i, total, squares)
      {
        var wear := WearOfFree(i - 1);
        if wear == 0 { break; }
        SummedStep(states, list, i, total, squares);
        total, squares := total + Power(wear, false), squares + Power(wear, true);
        i := i - 1;
      }
      SummedBounds(states, list, i, total, squares);
    }

    /** calculateWearLeveling: although the scan of the free list stops early, both sums are those of all
        in-use and free blocks. */
    method CalculateWearLeveling(logicalBlocks: nat) returns (ratio: real, total: nat, squares: nat)
      requires Valid() && Inv(g, f) && 1 <= logicalBlocks
      ensures total == UsedWear(f, g.total, false) + ListWear(f.pool, f.free, false)
      ensures squares == UsedWear(f, g.total, true) + ListWear(f.pool, f.free, true)
      ensures ratio == if squares == 0 then -1.0 else (total * total) as real / (logicalBlocks * squares) as real
    {
      var usedTotal, usedSquares := SumUsed();
      var freeTotal, freeSquares := SumFree();
      hide *;
      total, squares := usedTotal + freeTotal, usedSquares + freeSquares;
      if squares == 0 {
        ratio := -1.0;
      } else {
        ratio := (total * total) as real / (logicalBlocks * squares) as real;
      }
    }

    // ----- construction --------------------------------------------------------------------------------

    static method CreateBlocks(g: Geometry) returns (created: seq<FlashBlock>)
      ensures |created| == g.total && fresh(created) && Indexed(g, created)
      ensures Pooled(created, seq(g.total, _ => BlankBlock(g)))
    {
      created := [];
      for i := 0 to g.total
        invariant |created| == i && fresh(created)
        invariant forall k :: 0 <= k < i ==>
                    && created[k].idx == k && created[k].pages == g.pages && created[k].units == g.units
                    && created[k].Valid() && created[k].State() == BlankBlock(g)
      {
        var blk := new FlashBlock(i, g.pages, g.units);
        created := created + [blk];
      }
    }

    /** The constructor's loop over the active slots. */
    method OpenActiveSlots()
      requires Valid() && |lastFreeBlock| == g.slots && OpenSlots(g, f, 0).Ok?
      modifies this`blocks, this`freeBlocks, this`nFreeBlocks, this`lastFreeBlock, this`f
      ensures Valid() && OpenSlots(g, old(f), 0) == Ok(f)
    {
      hide Indexed, Pooled, Bound, Listed, TakeFree;
      for s := 0 to g.slots
        invariant Valid() && |lastFreeBlock| == g.slots
        invariant OpenSlots(g, f, s) == OpenSlots(g, old(f), 0)
      {
        var fault, b := GetFreeBlock(s);
        lastFreeBlock := lastFreeBlock[s := b];
        f := f.(active := lastFreeBlock);
      }
    }

    /** A fresh device: all blocks erased, one active block per slot, nothing mapped. */
    constructor (g: Geometry, policy: Policy)
      requires g.Valid()
      ensures this.g == g && this.policy == policy
      ensures Valid() && fresh(pool) && Fresh(g) == Ok(f)
      ensures Inv(g, f) && View(g, f) == map[]
    {
      var created := CreateBlocks(g);
      this.g, this.policy := g, policy;
      table, blocks, freeBlocks, nFreeBlocks := map[], map[], created, g.total;
      lastFreeBlock, lastFreeBlockIndex := seq(g.slots, _ => 0), 0;
      lastFreeBlockIOMap, reclaimMore := seq(g.units, _ => false), false;
      pool, f := created, Unopened(g);
      new;
      hide Inv, View, Indexed, Pooled;
      FreshDevice(g);
      OpenActiveSlots();
    }
  }
}
