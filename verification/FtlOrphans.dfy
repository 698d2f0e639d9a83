/** How a collection on a device with one unit per page can fail. getPageInfo reports every page as live, so
    a stale page is copied too, and that panics if its LPN has been trimmed since. */
module FtlOrphans {
  import opened Outcomes
  import opened FtlState
  import opened FtlSteps
  import opened FtlInvariant
  import opened FtlWrite
  import opened FtlCollect
  import opened FtlGarbage
  import opened FtlRun
  import opened FtlSingleUnit

  /** What copying keeps even after a stale page has been copied over a live one. */
  ghost predicate Sturdy(g: Geometry, f: Ftl) {
    && g.units == 1 && Shape(g, f) && Partition(g, f)
    && forall l :: l in f.table ==> |f.table[l]| == 1
  }

  /** The page carries an LPN the table does not have. */
  ghost predicate Orphan(f: Ftl, v: int, p: int) {
    At(f.pool, v, p, 0).lpn !in f.table
  }

  /** Copying frees or blanks no block and writes into blocks with room only. */
  ghost predicate Copied(g: Geometry, f: Ftl, f': Ftl) {
    && |f'.pool| == |f.pool| && f.used <= f'.used && f'.table.Keys == f.table.Keys
    && (Healthy(f) ==> Healthy(f'))
    && forall b :: b in f.used && b < |f.pool| && Full(g, f.pool[b]) ==>
         && Full(g, f'.pool[b])
         && forall q :: && At(f'.pool, b, q, 0).lpn == At(f.pool, b, q, 0).lpn
                        && (At(f'.pool, b, q, 0).valid ==> At(f.pool, b, q, 0).valid)
  }

  lemma CopiedTrans(g: Geometry, f0: Ftl, f1: Ftl, f2: Ftl)
    requires Copied(g, f0, f1) && Copied(g, f1, f2)
    ensures Copied(g, f0, f2)
  {
    hide Full, Healthy;
  }

  lemma CopiedRefl(g: Geometry, f: Ftl)
    ensures Copied(g, f, f)
  {
    hide Full, Healthy;
  }

  lemma TakeSturdy(g: Geometry, f: Ftl)
    requires Sturdy(g, f)
    ensures var r := TakeFree(g, f, f.cursor);
            && (r.Panic? <==> f.free == []) && (r.Panic? ==> r.why == NoFreeBlock)
            && (r.Ok? ==>
                  var f1 := r.value;
                  && Sturdy(g, f1) && f1.pool == f.pool && f1.table == f.table && f.used <= f1.used
                  && |f.free| == |f1.free| + 1 && (Healthy(f) ==> Healthy(f1)) && f1.cursor == f.cursor
                  && f1.active[f1.cursor] in f1.used && Roomy(g, f1.pool[f1.active[f1.cursor]]))
  {
    if f.free != [] {
      TakeFreeKeeps(g, f, f.cursor);
      var f1 := TakeFree(g, f, f.cursor).value;
      assert Disciplined(g, f.pool[f1.active[f.cursor]]);
    }
  }

  lemma AcquireSturdy(g: Geometry, f: Ftl)
    requires Sturdy(g, f)
    ensures var r := Acquire(g, f, [true]);
            && (r.Panic? ==> r.why in {Corrupted, NoFreeBlock})
            && (r.Panic? && Healthy(f) ==> r.why == NoFreeBlock)
            && (r == Panic(NoFreeBlock) ==> f.free == [])
            && (r.Ok? ==>
                  var f1 := r.value;
                  && Sturdy(g, f1) && f1.pool == f.pool && f1.table == f.table && f.used <= f1.used
                  && |f.free| <= |f1.free| + 1 && (Healthy(f) ==> Healthy(f1))
                  && f1.active[f1.cursor] in f1.used && Roomy(g, f1.pool[f1.active[f1.cursor]]))
  {
    hide Disciplined, TakeFree, Full;
    var f1 := Rotate(g, f, [true]);
    assert Sturdy(g, f1) && (Healthy(f) ==> Healthy(f1));
    TakeSturdy(g, f1);
    RoomyIffNotFull(g, f1.pool[f1.active[f1.cursor]]);
  }

  lemma RemoveSturdy(g: Geometry, f: Ftl, v: nat, p: nat)
    requires Sturdy(g, f) && v in f.used && p < g.pages
    ensures var r := InvalidateAt(f, v, p, 0);
            && r.Ok? && Sturdy(g, r.value) && r.value == f.(pool := r.value.pool)
            && SameWear(f.pool, r.value.pool)
            && OnlyCell(f.pool, r.value.pool, v, p, 0, At(f.pool, v, p, 0).(valid := false))
  {
    InvalidatedStaysDisciplined(g, f.pool[v], p, 0);
    SetCellFrame(f.pool, v, p, 0, At(f.pool, v, p, 0).(valid := false), f.pool[v].next);
  }

  lemma ProgramSturdy(g: Geometry, f: Ftl, d: nat, l: nat, image: Image)
    requires Sturdy(g, f) && d in f.used && Roomy(g, f.pool[d])
    ensures var r := Program(f, d, l, 0, image);
            && (r.Panic? <==> l !in f.table) && (r.Panic? ==> r.why == InvalidMapping)
            && (r.Ok? ==>
                  && Sturdy(g, r.value) && r.value == f.(pool := r.value.pool, table := r.value.table)
                  && r.value.table.Keys == f.table.Keys
                  && (forall b :: 0 <= b < g.total && b != d ==> r.value.pool[b] == f.pool[b]))
  {
    ProgrammedStaysDisciplined(g, f.pool[d], 0, l, image);
  }

  /** The two steps of a copy, seen from the blocks that were full before. */
  lemma CopiedByMove(g: Geometry, f: Ftl, f1: Ftl, f2: Ftl, f3: Ftl, v: nat, p: nat, d: nat)
    requires Sturdy(g, f) && f1.pool == f.pool && f1.table == f.table && f.used <= f1.used
    requires d < g.total && Roomy(g, f.pool[d]) && (Healthy(f) ==> Healthy(f1))
    requires f2 == f1.(pool := f2.pool) && SameWear(f1.pool, f2.pool)
    requires OnlyCell(f1.pool, f2.pool, v, p, 0, At(f1.pool, v, p, 0).(valid := false))
    requires f3 == f2.(pool := f3.pool, table := f3.table) && f3.table.Keys == f2.table.Keys
    requires |f3.pool| == g.total && forall b :: 0 <= b < g.total && b != d ==> f3.pool[b] == f2.pool[b]
    ensures Copied(g, f, f3)
    ensures v != d ==> !At(f3.pool, v, p, 0).valid
  {
    assert Disciplined(g, f.pool[d]);
    RoomyIffNotFull(g, f.pool[d]);
    hide Shape, Partition, Fill;
    forall b | b in f.used && b < |f.pool| && Full(g, f.pool[b])
      ensures Full(g, f3.pool[b])
      ensures forall q :: && At(f3.pool, b, q, 0).lpn == At(f.pool, b, q, 0).lpn
                          && (At(f3.pool, b, q, 0).valid ==> At(f.pool, b, q, 0).valid)
    {
      assert b != d && f3.pool[b] == f2.pool[b];
      forall q
        ensures At(f3.pool, b, q, 0) == At(f2.pool, b, q, 0)
      {
      }
    }
  }

  lemma CopyPageSturdy(g: Geometry, f: Ftl, v: nat, p: nat)
    requires Sturdy(g, f) && v in f.used && v < g.total && Full(g, f.pool[v]) && p < g.pages
    ensures var r := CopyPage(g, f, v, p);
            && (r.Panic? ==> r.why in {Corrupted, NoFreeBlock, InvalidMapping})
            && (r.Panic? && Healthy(f) ==> r.why != Corrupted)
            && (r == Panic(NoFreeBlock) ==> f.free == [])
            && (r == Panic(InvalidMapping) ==> Orphan(f, v, p))
            && (r.Ok? ==>
                  && !Orphan(f, v, p) && Sturdy(g, r.value) && Copied(g, f, r.value)
                  && FtlCollect.Drained(r.value, v, p) && |f.free| <= |r.value.free| + 1)
  {
    hide Acquire, InvalidateAt, Program, Partition, Full, Copied, Healthy;
    assert Disciplined(g, f.pool[v]);
    SingleCopy(g, f, v, p);
    AcquireSturdy(g, f);
    var r := Acquire(g, f, [true]);
    if r.Ok? {
      var f1 := r.value;
      var row, d := f.pool[v].cells[p], f1.active[f1.cursor];
      assert row[0] == At(f.pool, v, p, 0);
      RemoveSturdy(g, f1, v, p);
      var f2 := InvalidateAt(f1, v, p, 0).value;
      assert Roomy(g, f2.pool[d]);
      ProgramSturdy(g, f2, d, row[0].lpn, row[0].image);
      var r3 := Program(f2, d, row[0].lpn, 0, row[0].image);
      if r3.Ok? {
        assert MoveFrom(g, r3.value, v, p, row, [true], d, 1) == r3;
        CopiedByMove(g, f, f1, f2, r3.value, v, p, d);
        RoomyIffNotFull(g, f.pool[v]);
        DrainedRow(g, r3.value, v, p);
      }
    }
  }

  lemma DrainedRow(g: Geometry, f: Ftl, v: nat, p: nat)
    requires g.units == 1 && Shape(g, f) && v < g.total && p < g.pages && !At(f.pool, v, p, 0).valid
    ensures FtlCollect.Drained(f, v, p)
  {
    assert Disciplined(g, f.pool[v]);
  }

  lemma CopiedKeepsDrained(g: Geometry, f: Ftl, f': Ftl, v: nat, p: nat)
    requires Sturdy(g, f') && Copied(g, f, f') && v in f.used && v < |f.pool| && Full(g, f.pool[v]) && p < g.pages
    requires FtlCollect.Drained(f, v, p)
    ensures FtlCollect.Drained(f', v, p)
  {
    hide Full, Healthy, Partition;
    assert !At(f.pool, v, p, 0).valid;
    DrainedRow(g, f', v, p);
  }

  lemma {:induction false} CopyBlockSturdy(g: Geometry, f: Ftl, v: nat, p: nat)
    requires Sturdy(g, f) && v in f.used && v < g.total && Full(g, f.pool[v]) && p <= g.pages
    requires forall q :: 0 <= q < p ==> FtlCollect.Drained(f, v, q)
    ensures var r := CopyBlockFrom(g, f, v, p);
            && (r.Panic? ==> r.why in {Corrupted, NoFreeBlock, InvalidMapping})
            && (r.Panic? && Healthy(f) ==> r.why != Corrupted)
            && (r == Panic(NoFreeBlock) ==> |f.free| < g.pages - p)
            && (r == Panic(InvalidMapping) ==> exists q :: p <= q < g.pages && Orphan(f, v, q))
            && (r.Ok? ==>
                  && (forall q :: p <= q < g.pages ==> !Orphan(f, v, q))
                  && Sturdy(g, r.value) && Copied(g, f, r.value)
                  && Clean(g, r.value, v) && |f.free| <= |r.value.free| + g.pages - p)
    decreases g.pages - p
  {
    hide CopyPage, Sturdy, Full, FtlCollect.Drained, Healthy;
    if p == g.pages {
      CopiedRefl(g, f);
    } else {
      CopyPageSturdy(g, f, v, p);
      var r1 := CopyPage(g, f, v, p);
      if r1.Ok? {
        SturdyPool(g, f);
        SturdyPool(g, r1.value);
        forall q | 0 <= q < p
          ensures FtlCollect.Drained(r1.value, v, q)
        {
          CopiedKeepsDrained(g, f, r1.value, v, q);
        }
        CopyBlockSturdy(g, r1.value, v, p + 1);
        var r := CopyBlockFrom(g, r1.value, v, p + 1);
        assert forall q :: Orphan(r1.value, v, q) <==> Orphan(f, v, q);
        if r.Ok? { CopiedTrans(g, f, r1.value, r.value); }
      }
    }
  }

  lemma SturdyPool(g: Geometry, f: Ftl)
    requires Sturdy(g, f)
    ensures |f.pool| == g.total
  {
  }

  // ----- all victims ------------------------------------------------------------------------------------------

  /** Pages in n blocks. */
  function PagesIn(g: Geometry, n: nat): nat {
    n * g.pages
  }

  lemma PagesNext(g: Geometry, n: nat)
    ensures PagesIn(g, n + 1) == PagesIn(g, n) + g.pages
  {
  }

  ghost predicate OrphanFrom(g: Geometry, f: Ftl, victims: seq<nat>, i: nat) {
    exists k, q :: i <= k < |victims| && 0 <= q < g.pages && Orphan(f, victims[k], q)
  }

  lemma OrphansStay(g: Geometry, f: Ftl, f1: Ftl, victims: seq<nat>, i: nat)
    requires Victims(g, f, victims) && Copied(g, f, f1) && i < |victims|
    ensures OrphanFrom(g, f, victims, i) <==>
            (exists q :: 0 <= q < g.pages && Orphan(f, victims[i], q)) || OrphanFrom(g, f1, victims, i + 1)
  {
    hide Full, Healthy;
    assert forall k, q :: 0 <= k < |victims| ==> (Orphan(f1, victims[k], q) <==> Orphan(f, victims[k], q));
    if OrphanFrom(g, f, victims, i) {
      var k, q :| i <= k < |victims| && 0 <= q < g.pages && Orphan(f, victims[k], q);
      assert k == i || Orphan(f1, victims[k], q);
    }
  }

  lemma CopiedVictims(g: Geometry, f: Ftl, f1: Ftl, victims: seq<nat>)
    requires Victims(g, f, victims) && Copied(g, f, f1)
    ensures Victims(g, f1, victims)
  {
    hide Full, Healthy;
  }

  lemma CopiedStaysClean(g: Geometry, f: Ftl, f1: Ftl, v: nat)
    requires Sturdy(g, f1) && Copied(g, f, f1) && v in f.used && v < |f.pool| && Full(g, f.pool[v]) && Clean(g, f, v)
    ensures Clean(g, f1, v)
  {
    hide Sturdy, Full, Copied, FtlCollect.Drained;
    forall p | 0 <= p < g.pages
      ensures FtlCollect.Drained(f1, v, p)
    {
      CopiedKeepsDrained(g, f, f1, v, p);
    }
  }

  lemma {:induction false} CopyVictimsSturdy(g: Geometry, f: Ftl, victims: seq<nat>, i: nat)
    requires Sturdy(g, f) && Victims(g, f, victims) && i <= |victims|
    ensures var r := CopyVictims(g, f, victims, i);
            && (r.Panic? ==> r.why in {Corrupted, NoFreeBlock, InvalidMapping})
            && (r.Panic? && Healthy(f) ==> r.why != Corrupted)
            && (r == Panic(NoFreeBlock) ==> |f.free| < PagesIn(g, |victims| - i))
            && (r == Panic(InvalidMapping) ==> OrphanFrom(g, f, victims, i))
            && (r.Ok? ==>
                  && !OrphanFrom(g, f, victims, i) && Sturdy(g, r.value) && Copied(g, f, r.value)
                  && (forall k :: i <= k < |victims| ==> Clean(g, r.value, victims[k]))
                  && |f.free| <= |r.value.free| + PagesIn(g, |victims| - i))
    decreases |victims| - i
  {
    hide CopyBlockFrom, Sturdy, Copied, Full, Distinct, Clean, Orphan, Healthy, PagesIn;
    if i == |victims| {
      CopiedRefl(g, f);
    } else {
      var v := victims[i];
      SturdyPool(g, f);
      CopyBlockSturdy(g, f, v, 0);
      PagesNext(g, |victims| - i - 1);
      var r1 := CopyBlockFrom(g, f, v, 0);
      if r1.Ok? {
        OrphansStay(g, f, r1.value, victims, i);
        CopiedVictims(g, f, r1.value, victims);
        CopiedHealthy(g, f, r1.value);
        CopyVictimsSturdy(g, r1.value, victims, i + 1);
        var r := CopyVictims(g, r1.value, victims, i + 1);
        if r.Ok? {
          CopiedTrans(g, f, r1.value, r.value);
          CopiedStaysClean(g, r1.value, r.value, v);
        }
      }
    }
  }

  lemma CopiedHealthy(g: Geometry, f: Ftl, f1: Ftl)
    requires Copied(g, f, f1)
    ensures Healthy(f) ==> Healthy(f1)
  {
  }

  lemma {:induction false} EraseSturdy(g: Geometry, f: Ftl, victims: seq<nat>, i: nat)
    requires Sturdy(g, f) && Erasable(g, f, victims, i)
    ensures var r := EraseVictims(g, f, victims, i); r.Panic? ==> r.why == EmptyFreeList && f.free == []
    decreases |victims| - i
  {
    hide EraseBlock, Partition, Disciplined, Erased;
    if i < |victims| {
      var v := victims[i];
      EraseOutcome(g, f, v);
      var r := EraseBlock(g, f, v);
      if r.Ok? {
        ErasedStaysDisciplined(g, f.pool[v]);
        ReleaseKeepsPartition(g, f, v);
        ErasableNext(g, f, r.value, victims, i);
        EraseSturdy(g, r.value, victims, i + 1);
      }
    }
  }

  /** Every way a collection of full blocks can fail on a device with one unit per page. It never succeeds if a page
      of a victim carries an LPN that is not in the table any more; with intact active blocks and a free block for
      every page, that is the only way to fail. */
  lemma SingleUnitCollectFaults(g: Geometry, f: Ftl, victims: seq<nat>)
    requires Inv(g, f) && g.units == 1 && Victims(g, f, victims)
    ensures var r := Collect(g, f, victims);
            var orphan := exists k, q :: 0 <= k < |victims| && 0 <= q < g.pages && Orphan(f, victims[k], q);
            && (r.Panic? ==> r.why in {Corrupted, NoFreeBlock, EmptyFreeList, InvalidMapping})
            && (r == Panic(Corrupted) ==> !Healthy(f))
            && (r == Panic(NoFreeBlock) ==> |f.free| < |victims| * g.pages)
            && (r == Panic(InvalidMapping) ==> orphan)
            && (orphan ==> r.Panic? && r.why != EmptyFreeList)
            && (Healthy(f) && |victims| * g.pages <= |f.free| ==> (r == Panic(InvalidMapping) <==> orphan))
            && (Healthy(f) && |victims| * g.pages < |f.free| ==> (r.Ok? <==> !orphan))
  {
    hide Shape, Partition, Backward, Full, CopyVictims, EraseVictims, Healthy, Orphan, Copied, Clean;
    CopyVictimsSturdy(g, f, victims, 0);
    assert OrphanFrom(g, f, victims, 0) <==>
           exists k, q :: 0 <= k < |victims| && 0 <= q < g.pages && Orphan(f, victims[k], q);
    var r := CopyVictims(g, f, victims, 0);
    if r.Ok? {
      CopiedVictims(g, f, r.value, victims);
      SturdyPool(g, r.value);
      EraseSturdy(g, r.value, victims, 0);
    }
  }

  /** The same for a whole host request, whatever its victims are: every fault it can end in. */
  lemma SingleUnitStepFaults(g: Geometry, k: Policy, f: Ftl, op: Op)
    requires g.Valid() && Inv(g, f) && g.units == 1 && op.Shaped(g) && Legal(g, k, f, op)
    ensures var r := Step(g, k, f, op);
            && (r.Panic? ==> r.why in ReachableFaults + {InvalidMapping})
            && (r == Panic(InvalidMapping) ==> MeetsOrphan(g, k, f, op))
            && (MeetsOrphan(g, k, f, op) ==> r.Panic? && r.why in {Corrupted, NoFreeBlock, InvalidMapping})
  {
    hide Inv, View, HostWrite, Write, Trim, Collect, Victims, FullBlocks, Orphan, Healthy;
    match op
    case TrimOp(lpn) =>
      TrimIsHostTrim(g, f, lpn);
    case WriteOp(lpn, flags, data, victims) =>
      WriteIsHostWrite(g, f, lpn, flags, data);
      if AnyBit(flags) && Write(g, f, lpn, flags, data).Ok? {
        var f1 := Write(g, f, lpn, flags, data).value;
        if LowOnBlocks(g, f1, k.threshold) {
          ReclaimFlag(g, f1, false);
          VictimsFlag(g, f1, victims);
          SingleUnitCollectFaults(g, f1.(reclaimMore := false), victims);
          OrphanFlag(g, f1, victims);
        }
      }
  }

  /** The request starts a collection, and a page of a victim carries an LPN that is not in the table. */
  ghost predicate MeetsOrphan(g: Geometry, k: Policy, f: Ftl, op: Op)
    requires 1 <= g.total && op.Shaped(g)
  {
    && op.WriteOp? && AnyBit(op.flags)
    && var r := Write(g, f, op.lpn, op.flags, op.data);
    && r.Ok? && LowOnBlocks(g, r.value, k.threshold) && OrphanFrom(g, r.value, op.victims, 0)
  }

  lemma OrphanFlag(g: Geometry, f: Ftl, victims: seq<nat>)
    ensures OrphanFrom(g, f, victims, 0) <==>
            var f' := f.(reclaimMore := false);
            exists k, q :: 0 <= k < |victims| && 0 <= q < g.pages && Orphan(f', victims[k], q)
  {
    assert forall v, q :: Orphan(f.(reclaimMore := false), v, q) <==> Orphan(f, v, q);
  }

  // ----- a trimmed page ---------------------------------------------------------------------------------------

  /** LPN 0 was written and trimmed, then LPN 1 was written: block 0 is stale and its LPN is gone. */
  const Trimmed: Ftl :=
    Ftl([One(Stored(1, false), 1, 0), One(Cell(true, false, 1, [Some(2)]), 1, 0), One(Empty, 0, 0), One(Empty, 0, 0)],
        {0, 1}, [2, 3], map[1 := [Ppa(1, 0)]], [1], 0, [true], false)

  const TrimmedOnce: Ftl :=
    Once.(pool := [One(Stored(1, false), 1, 0), One(Empty, 0, 0), One(Empty, 0, 0), One(Empty, 0, 0)], table := map[])

  lemma MonoTrim()
    ensures Trim(Mono, Once, 0) == Ok(TrimmedOnce)
  {
    var f1 := Once.(pool := TrimmedOnce.pool);
    assert [Stored(1, true)][0 := Stored(1, false)] == [Stored(1, false)];
    assert [[Stored(1, true)]][0 := [Stored(1, false)]] == [[Stored(1, false)]];
    assert Once.pool[0 := One(Stored(1, false), 1, 0)] == f1.pool;
    assert InvalidateAt(Once, 0, 0, 0) == Ok(f1);
    assert TrimFrom(Mono, Once, 0, 0) == TrimFrom(Mono, f1, 0, 1) == Ok(f1);
    assert f1.table - {0} == map[];
  }

  lemma MonoNextWrite()
    ensures Write(Mono, TrimmedOnce, 1, [true], [2]) == Ok(Trimmed.(reclaimMore := true))
  {
    var f1 := Enter(Mono, TrimmedOnce, 1);
    assert seq(1, _ => Mono.Unmapped()) == [Ppa(4, 1)];
    assert f1.table == map[1 := [Ppa(4, 1)]];
    assert Fill([1]) == 1 by { assert Fill([1][..0]) == 0; }
    assert PickFree(1, [1, 2, 3], 0, 0) == 0;
    assert [1, 2, 3][..0] + [1, 2, 3][1..] == [2, 3] && [0][0 := 1] == [1] && f1.used + {1} == {0, 1};
    var f2 := f1.(used := {0, 1}, free := [2, 3], active := [1], reclaimMore := true);
    assert Acquire(Mono, f1, [true]) == Ok(f2);
    assert Merged(Mono, f2, 1, 0, [true], [2]) == [Some(2)];
    var f3 := Trimmed.(reclaimMore := true);
    var c := Cell(true, false, 1, [Some(2)]);
    assert [Empty][0 := c] == [c] && [0][0 := 1] == [1] && [[Empty]][0 := [c]] == [[c]];
    assert Programmed(One(Empty, 0, 0), 0, 1, 0, [Some(2)]) == Ok(One(c, 1, 0));
    assert f2.pool[1 := One(c, 1, 0)] == f3.pool;
    assert f2.table[1][0 := Ppa(1, 0)] == [Ppa(1, 0)] && f2.table[1 := [Ppa(1, 0)]] == f3.table;
    assert Program(f2, 1, 1, 0, [Some(2)]) == Ok(f3);
    assert ProgramFrom(Mono, f2, 1, 1, [true], [2], 0) == ProgramFrom(Mono, f3, 1, 1, [true], [2], 1) == Ok(f3);
  }

  lemma TrimmedShape()
    ensures Shape(Mono, Trimmed) && Partition(Mono, Trimmed) && Victims(Mono, Trimmed, [0])
  {
    assert Fill([1]) == 1 by { assert Fill([1][..0]) == 0; }
    forall b | 0 <= b < 4 ensures Disciplined(Mono, Trimmed.pool[b]) {}
    hide Disciplined, Fill;
  }

  lemma TrimmedMapping()
    ensures Forward(Mono, Trimmed, {}) && Backward(Mono, Trimmed, {})
  {
    forall b, p, u | At(Trimmed.pool, b, p, u).valid
      ensures b == 1 && p == 0 && u == 0
    {
      assert b == 0 || b == 1 || b == 2 || b == 3;
    }
    assert At(Trimmed.pool, 1, 0, 0) == Cell(true, false, 1, [Some(2)]);
  }

  lemma TrimmedIsSound()
    ensures Inv(Mono, Trimmed) && Healthy(Trimmed) && Victims(Mono, Trimmed, [0]) && Orphan(Trimmed, 0, 0)
  {
    hide Shape, Partition, Forward, Backward, Victims;
    TrimmedShape();
    TrimmedMapping();
    assert At(Trimmed.pool, 0, 0, 0) == Stored(1, false);
  }

  lemma TrimmedCollect()
    ensures Collect(Mono, Trimmed, [0]) == Panic(InvalidMapping)
  {
    hide Inv, Victims, Collect, Healthy;
    TrimmedIsSound();
    SingleUnitCollectFaults(Mono, Trimmed, [0]);
    assert Orphan(Trimmed, [0][0], 0);
  }

  lemma TrimmedGreedy()
    ensures var f := Trimmed.(reclaimMore := true); GreedyChoice(Mono, f, ReclaimCount(Mono, f, MonoPolicy), [0])
  {
    hide Inv;
    TrimmedIsSound();
    assert RowCount([Stored(1, false)]) == 0 by { assert RowCount([Stored(1, false)][..0]) == 0; }
    assert CellCount([[Stored(1, false)]]) == 0 by { assert CellCount([[Stored(1, false)]][..0]) == 0; }
    hide Full, RowCount, CellCount;
  }

  const ThirdOp: Op := WriteOp(1, [true], [2], [0])

  lemma MonoTrimStep()
    ensures Step(Mono, MonoPolicy, Once, TrimOp(0)) == Ok(TrimmedOnce) && Legal(Mono, MonoPolicy, Once, TrimOp(0))
  {
    MonoTrim();
    hide Trim, Write, Collect, GreedyChoice, ReclaimCount;
  }

  lemma MonoThirdStep()
    ensures Step(Mono, MonoPolicy, TrimmedOnce, ThirdOp) == Panic(InvalidMapping)
    ensures Legal(Mono, MonoPolicy, TrimmedOnce, ThirdOp)
  {
    hide Write, Collect, GreedyChoice, ReclaimCount;
    MonoNextWrite();
    TrimmedCollect();
    TrimmedGreedy();
    assert [true][0];
    assert LowOnBlocks(Mono, Trimmed.(reclaimMore := true), 0.6);
    assert Trimmed.(reclaimMore := true).(reclaimMore := false) == Trimmed;
  }

  /** Write LPN 0, trim it, write LPN 1 on a new device: the collection that the last write starts panics. */
  lemma TrimThenWritePanics()
    ensures var ops := [FirstOp, TrimOp(0), ThirdOp];
            && Fresh(Mono) == Ok(MonoOpening) && LegalRun(Mono, MonoPolicy, MonoOpening, ops)
            && Run(Mono, MonoPolicy, MonoOpening, ops) == Panic(InvalidMapping)
  {
    hide Step, Legal;
    MonoFresh();
    MonoFirstStep();
    MonoTrimStep();
    MonoThirdStep();
    assert [FirstOp, TrimOp(0), ThirdOp][1..] == [TrimOp(0), ThirdOp] && [TrimOp(0), ThirdOp][1..] == [ThirdOp];
    assert Run(Mono, MonoPolicy, TrimmedOnce, [ThirdOp]) == Panic(InvalidMapping);
    assert Run(Mono, MonoPolicy, Once, [TrimOp(0), ThirdOp]) == Panic(InvalidMapping);
    assert LegalRun(Mono, MonoPolicy, TrimmedOnce, [ThirdOp]);
    assert LegalRun(Mono, MonoPolicy, Once, [TrimOp(0), ThirdOp]);
  }
}
