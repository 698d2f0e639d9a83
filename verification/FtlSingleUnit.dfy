/** Pages with a single I/O unit. Block::getPageInfo then reports every page as live, so garbage
    collection also copies stale pages; this module says exactly when that does harm. */
module FtlSingleUnit {
  import opened Outcomes
  import opened FtlState
  import opened FtlSteps
  import opened FtlInvariant
  import opened FtlWrite
  import opened FtlCollect
  import opened FtlGarbage
  import opened FtlRun

  ghost predicate AllMapped(g: Geometry, f: Ftl) {
    forall l :: l in f.table ==> |f.table[l]| == 1 && f.table[l][0] != g.Unmapped()
  }

  /** Two different pages both claim to be the valid copy of one LPN. */
  ghost predicate TwinsAt(pool: seq<Block>, b: int, p: int, c: int, q: int) {
    && (b, p) != (c, q)
    && At(pool, b, p, 0).valid && At(pool, c, q, 0).valid && At(pool, b, p, 0).lpn == At(pool, c, q, 0).lpn
  }

  ghost predicate Twins(pool: seq<Block>) {
    exists b, p, c, q :: TwinsAt(pool, b, p, c, q)
  }

  /** Erased units are never valid. */
  ghost predicate Sober(pool: seq<Block>) {
    forall b, p :: At(pool, b, p, 0).erased ==> !At(pool, b, p, 0).valid
  }

  lemma TwinsBreakMapping(g: Geometry, f: Ftl)
    requires g.units == 1 && Inv(g, f)
    ensures !Twins(f.pool) && Sober(f.pool)
  {
    forall b, p, c, q
      ensures !TwinsAt(f.pool, b, p, c, q)
    {
      hide Shape, Partition, Forward;
      assert Backward(g, f, {});
    }
    forall b, p | At(f.pool, b, p, 0).erased
      ensures !At(f.pool, b, p, 0).valid
    {
      assert Disciplined(g, f.pool[b]);
    }
  }

  /** Invalidating a unit that is not valid changes nothing. */
  lemma InvalidateIdle(g: Geometry, f: Ftl, v: nat, p: nat)
    requires Shape(g, f) && v in f.used && v < g.total && p < g.pages && !At(f.pool, v, p, 0).valid
    ensures InvalidateAt(f, v, p, 0) == Ok(f)
  {
    var b := f.pool[v];
    assert b.cells[p][0 := b.cells[p][0].(valid := false)] == b.cells[p];
    assert b.cells[p := b.cells[p]] == b.cells;
    assert f.pool[v := b] == f.pool;
  }

  /** Programming a copy for an LPN whose current unit stays valid leaves two valid units for it. */
  lemma DoubleMapping(g: Geometry, f: Ftl, d: nat, l: nat, image: Image)
    requires Inv(g, f) && g.units == 1 && AllMapped(g, f) && d in f.used && Roomy(g, f.pool[d])
    ensures var r := Program(f, d, l, 0, image);
            r.Ok? ==> Twins(r.value.pool)
  {
    var q := f.pool[d].next[0];
    var r := Program(f, d, l, 0, image);
    if r.Ok? {
      SetCellFrame(f.pool, d, q, 0, Cell(true, false, l, image), f.pool[d].next[0 := q + 1]);
      var e := f.table[l][0];
      assert At(f.pool, e.block, e.page, 0).valid && !At(f.pool, d, q, 0).valid;
      assert At(r.value.pool, e.block, e.page, 0) == At(f.pool, e.block, e.page, 0);
      assert TwinsAt(r.value.pool, e.block, e.page, d, q);
    }
  }

  lemma StaleMoveMakesTwins(g: Geometry, f: Ftl, v: nat, p: nat, d: nat)
    requires Inv(g, f) && g.units == 1 && AllMapped(g, f) && v in f.used && p < g.pages
    requires d in f.used && Roomy(g, f.pool[d]) && !At(f.pool, v, p, 0).valid
    ensures var row := f.pool[v].cells[p];
            var r := MoveFrom(g, f, v, p, row, [true], d, 0);
            r.Ok? ==> Twins(r.value.pool)
  {
    var row := f.pool[v].cells[p];
    assert |row| == 1;
    InvalidateIdle(g, f, v, p);
    DoubleMapping(g, f, d, row[0].lpn, row[0].image);
    hide Inv, InvalidateAt, Program, Twins;
    var r := Program(f, d, row[0].lpn, 0, row[0].image);
    if r.Ok? {
      assert MoveFrom(g, r.value, v, p, row, [true], d, 1) == Ok(r.value);
    }
  }

  /** A page of a single-unit victim is always copied, wherever getLastFreeBlock puts it. */
  lemma SingleCopy(g: Geometry, f: Ftl, v: nat, p: nat)
    requires g.units == 1 && v in f.used && v < |f.pool| && p < |f.pool[v].cells|
    ensures var row := f.pool[v].cells[p];
            var r := Acquire(g, f, [true]);
            CopyPage(g, f, v, p) ==
            if r.Panic? then r else MoveFrom(g, r.value, v, p, row, [true], r.value.active[r.value.cursor], 0)
  {
    hide Acquire, MoveFrom;
    assert PageMap(g, f.pool[v].cells[p])[0];
    assert MoveBits(g, f.pool[v].cells[p]) == [true];
  }

  lemma StaleCopyMakesTwins(g: Geometry, f: Ftl, v: nat, p: nat)
    requires Inv(g, f) && g.units == 1 && AllMapped(g, f) && v in f.used && Full(g, f.pool[v]) && p < g.pages
    requires !Honest(g, f.pool[v].cells[p]) && CopyPage(g, f, v, p).Ok?
    ensures Twins(CopyPage(g, f, v, p).value.pool)
  {
    hide Forward, Backward, Acquire, MoveFrom, Twins, CopyPage;
    SingleCopy(g, f, v, p);
    AcquireKeeps(g, f, [true], {});
    var f1 := Acquire(g, f, [true]).value;
    UsedBlock(g, f, v);
    assert At(f.pool, v, p, 0) == f.pool[v].cells[p][0];
    StaleMoveMakesTwins(g, f1, v, p, f1.active[f1.cursor]);
  }

  // ----- twins survive the rest of a collection --------------------------------------------------------

  /** Programming a unit that is erased. */
  lemma ProgramTwins(f: Ftl, d: nat, l: nat, image: Image)
    requires Sober(f.pool) && Program(f, d, l, 0, image).Ok?
    ensures d < |f.pool| && 0 < |f.pool[d].next|
    ensures var q := f.pool[d].next[0];
            var pool' := Program(f, d, l, 0, image).value.pool;
            && Sober(pool')
            && At(pool', d, q, 0) == Cell(true, false, l, image) && !At(f.pool, d, q, 0).valid
            && forall b, p :: (b, p) != (d, q) ==> At(pool', b, p, 0) == At(f.pool, b, p, 0)
  {
    var q := f.pool[d].next[0];
    SetCellFrame(f.pool, d, q, 0, Cell(true, false, l, image), f.pool[d].next[0 := q + 1]);
    assert At(f.pool, d, q, 0).erased;
  }

  lemma InvalidateFrame(f: Ftl, v: nat, p: nat)
    requires InvalidateAt(f, v, p, 0).Ok?
    ensures var pool' := InvalidateAt(f, v, p, 0).value.pool;
            && At(pool', v, p, 0) == At(f.pool, v, p, 0).(valid := false)
            && forall b, q :: (b, q) != (v, p) ==> At(pool', b, q, 0) == At(f.pool, b, q, 0)
  {
    SetCellFrame(f.pool, v, p, 0, At(f.pool, v, p, 0).(valid := false), f.pool[v].next);
  }

  /** Where a page is after page (v, p) has moved to (d, q). */
  function Follow(b: int, p: int, v: int, vp: int, d: int, q: int): (int, int) {
    if (b, p) == (v, vp) then (d, q) else (b, p)
  }

  lemma MoveTwins(g: Geometry, f: Ftl, v: nat, p: nat, d: nat)
    requires g.units == 1 && v < |f.pool| && p < |f.pool[v].cells| && Sober(f.pool)
    requires MoveFrom(g, f, v, p, f.pool[v].cells[p], [true], d, 0).Ok?
    ensures var pool' := MoveFrom(g, f, v, p, f.pool[v].cells[p], [true], d, 0).value.pool;
            Sober(pool') && (Twins(f.pool) ==> Twins(pool'))
  {
    hide InvalidateAt, Program;
    var row := f.pool[v].cells[p];
    var f1 := InvalidateAt(f, v, p, 0).value;
    InvalidateFrame(f, v, p);
    var r := Program(f1, d, row[0].lpn, 0, row[0].image);
    ProgramTwins(f1, d, row[0].lpn, row[0].image);
    assert MoveFrom(g, r.value, v, p, row, [true], d, 1) == Ok(r.value);
    if Twins(f.pool) {
      var b, x, c, y :| TwinsAt(f.pool, b, x, c, y);
      TwinsFollow(f.pool, f1.pool, r.value.pool, b, x, c, y, v, p, d, f1.pool[d].next[0]);
    }
  }

  lemma TwinsFollow(pool: seq<Block>, pool1: seq<Block>, pool2: seq<Block>, b: int, x: int, c: int, y: int, v: nat,
      p: nat, d: nat, q: nat)
    requires TwinsAt(pool, b, x, c, y)
    requires At(pool1, v, p, 0) == At(pool, v, p, 0).(valid := false)
    requires forall b, q :: (b, q) != (v, p) ==> At(pool1, b, q, 0) == At(pool, b, q, 0)
    requires !At(pool1, d, q, 0).valid && At(pool2, d, q, 0).valid && At(pool2, d, q, 0).lpn == At(pool, v, p, 0).lpn
    requires forall b, p :: (b, p) != (d, q) ==> At(pool2, b, p, 0) == At(pool1, b, p, 0)
    ensures Twins(pool2)
  {
    var s, t := Follow(b, x, v, p, d, q), Follow(c, y, v, p, d, q);
    assert TwinsAt(pool2, s.0, s.1, t.0, t.1);
  }

  /** Copying a page never removes twins. */
  lemma CopyPageTwins(g: Geometry, f: Ftl, v: nat, p: nat)
    requires g.units == 1 && Sober(f.pool) && Twins(f.pool) && CopyPage(g, f, v, p).Ok?
    ensures var pool' := CopyPage(g, f, v, p).value.pool; Sober(pool') && Twins(pool')
  {
    hide MoveFrom, Twins, Sober;
    SingleCopy(g, f, v, p);
    AcquirePool(g, f, [true]);
    var f1 := Acquire(g, f, [true]).value;
    MoveTwins(g, f1, v, p, f1.active[f1.cursor]);
  }

  lemma AcquirePool(g: Geometry, f: Ftl, ioMap: seq<bool>)
    ensures var r := Acquire(g, f, ioMap);
            r.Ok? ==> r.value.pool == f.pool && r.value.table == f.table && r.value.cursor < |r.value.active|
  {
  }

  lemma {:induction false} CopyBlockTwins(g: Geometry, f: Ftl, v: nat, p: nat)
    requires g.units == 1 && Sober(f.pool) && Twins(f.pool) && CopyBlockFrom(g, f, v, p).Ok?
    ensures var pool' := CopyBlockFrom(g, f, v, p).value.pool; Sober(pool') && Twins(pool')
    decreases g.pages - p
  {
    hide Twins, Sober, CopyPage;
    if p < g.pages {
      CopyPageTwins(g, f, v, p);
      CopyBlockTwins(g, CopyPage(g, f, v, p).value, v, p + 1);
    }
  }

  lemma {:induction false} CopyVictimsTwins(g: Geometry, f: Ftl, victims: seq<nat>, i: nat)
    requires g.units == 1 && Sober(f.pool) && Twins(f.pool) && CopyVictims(g, f, victims, i).Ok?
    ensures var pool' := CopyVictims(g, f, victims, i).value.pool; Sober(pool') && Twins(pool')
    decreases |victims| - i
  {
    hide Twins, Sober, CopyBlockFrom;
    if i < |victims| {
      CopyBlockTwins(g, f, victims[i], 0);
      CopyVictimsTwins(g, CopyBlockFrom(g, f, victims[i], 0).value, victims, i + 1);
    }
  }

  /** Erasing checks for valid units first, so it never removes one of the twins. */
  lemma {:induction false} EraseTwins(g: Geometry, f: Ftl, victims: seq<nat>, i: nat)
    requires Twins(f.pool) && EraseVictims(g, f, victims, i).Ok?
    ensures Twins(EraseVictims(g, f, victims, i).value.pool)
    decreases |victims| - i
  {
    if i < |victims| {
      var v := victims[i];
      var f1 := EraseBlock(g, f, v).value;
      var b, p, c, q :| TwinsAt(f.pool, b, p, c, q);
      assert b != v && c != v by {
        if b == v { assert AnyValid(f.pool[v].cells[p]); }
        if c == v { assert AnyValid(f.pool[v].cells[q]); }
      }
      assert TwinsAt(f1.pool, b, p, c, q);
      EraseTwins(g, f1, victims, i + 1);
    }
  }

  // ----- every table entry is mapped -------------------------------------------------------------------

  /** What makes AllMapped hold in every reachable state. */
  ghost predicate Tidy(g: Geometry, f: Ftl) {
    |f.pool| == g.total && AllMapped(g, f)
  }

  lemma ProgramTidy(g: Geometry, f: Ftl, d: nat, l: nat, image: Image)
    requires |f.pool| == g.total && Program(f, d, l, 0, image).Ok?
    requires forall x :: x in f.table ==> |f.table[x]| == 1 && (x != l ==> f.table[x][0] != g.Unmapped())
    ensures Tidy(g, Program(f, d, l, 0, image).value)
  {
  }

  lemma InvalidateTidy(g: Geometry, f: Ftl, v: nat, p: nat)
    requires InvalidateAt(f, v, p, 0).Ok?
    ensures var f1 := InvalidateAt(f, v, p, 0).value; |f1.pool| == |f.pool| && f1.table == f.table
  {
  }

  lemma CopyPageTidy(g: Geometry, f: Ftl, v: nat, p: nat)
    requires g.units == 1 && Tidy(g, f) && CopyPage(g, f, v, p).Ok?
    ensures Tidy(g, CopyPage(g, f, v, p).value)
  {
    hide Acquire, InvalidateAt, Program;
    SingleCopy(g, f, v, p);
    AcquirePool(g, f, [true]);
    var f1 := Acquire(g, f, [true]).value;
    var row, d := f.pool[v].cells[p], f1.active[f1.cursor];
    InvalidateTidy(g, f1, v, p);
    var f2 := InvalidateAt(f1, v, p, 0).value;
    ProgramTidy(g, f2, d, row[0].lpn, row[0].image);
    var f3 := Program(f2, d, row[0].lpn, 0, row[0].image).value;
    assert MoveFrom(g, f3, v, p, row, [true], d, 1) == Ok(f3);
  }

  lemma {:induction false} CopyBlockTidy(g: Geometry, f: Ftl, v: nat, p: nat)
    requires g.units == 1 && Tidy(g, f) && CopyBlockFrom(g, f, v, p).Ok?
    ensures Tidy(g, CopyBlockFrom(g, f, v, p).value)
    decreases g.pages - p
  {
    hide Tidy, CopyPage;
    if p < g.pages {
      CopyPageTidy(g, f, v, p);
      CopyBlockTidy(g, CopyPage(g, f, v, p).value, v, p + 1);
    }
  }

  lemma {:induction false} CopyVictimsTidy(g: Geometry, f: Ftl, victims: seq<nat>, i: nat)
    requires g.units == 1 && Tidy(g, f) && CopyVictims(g, f, victims, i).Ok?
    ensures Tidy(g, CopyVictims(g, f, victims, i).value)
    decreases |victims| - i
  {
    hide Tidy, CopyBlockFrom;
    if i < |victims| {
      CopyBlockTidy(g, f, victims[i], 0);
      CopyVictimsTidy(g, CopyBlockFrom(g, f, victims[i], 0).value, victims, i + 1);
    }
  }

  lemma {:induction false} EraseTidy(g: Geometry, f: Ftl, victims: seq<nat>, i: nat)
    requires Tidy(g, f) && EraseVictims(g, f, victims, i).Ok?
    ensures Tidy(g, EraseVictims(g, f, victims, i).value)
    decreases |victims| - i
  {
    if i < |victims| { EraseTidy(g, EraseBlock(g, f, victims[i]).value, victims, i + 1); }
  }

  lemma WriteTidy(g: Geometry, f: Ftl, lpn: nat, flags: seq<bool>, data: seq<Data>)
    requires g.units == 1 && Tidy(g, f) && |flags| == |data| == 1 && AnyBit(flags) && Write(g, f, lpn, flags, data).Ok?
    ensures Tidy(g, Write(g, f, lpn, flags, data).value)
  {
    hide Acquire, InvalidateAt, Program, Merged;
    assert flags[0] && g.Selects(flags, 0);
    var f1: Ftl;
    if lpn in f.table {
      f1 := InvalidateFrom(g, f, lpn, flags, 0).value;
      InvalidatedTidy(g, f, lpn, flags);
    } else {
      f1 := Enter(g, f, lpn);
    }
    AcquirePool(g, f1, flags);
    var f2 := Acquire(g, f1, flags).value;
    var d, image := f2.active[f2.cursor], Merged(g, f2, lpn, 0, flags, data);
    ProgramTidy(g, f2, d, lpn, image);
    var f3 := Program(f2, d, lpn, 0, image).value;
    assert ProgramFrom(g, f3, d, lpn, flags, data, 1) == Ok(f3);
  }

  lemma InvalidatedTidy(g: Geometry, f: Ftl, lpn: nat, flags: seq<bool>)
    requires g.units == 1 && g.Selects(flags, 0) && InvalidateFrom(g, f, lpn, flags, 0).Ok?
    ensures var f1 := InvalidateFrom(g, f, lpn, flags, 0).value; |f1.pool| == |f.pool| && f1.table == f.table
  {
    hide InvalidateAt;
    assert forall x: Ftl :: InvalidateFrom(g, x, lpn, flags, 1) == Ok(x);
    if InRange(g, f.table[lpn][0]) { InvalidateTidy(g, f, f.table[lpn][0].block, f.table[lpn][0].page); }
  }

  lemma TrimTidy(g: Geometry, f: Ftl, lpn: nat)
    requires g.units == 1 && Tidy(g, f) && Trim(g, f, lpn).Ok?
    ensures Tidy(g, Trim(g, f, lpn).value)
  {
    hide InvalidateAt;
    if lpn in f.table {
      var e := f.table[lpn][0];
      InvalidateTidy(g, f, e.block, e.page);
      var f1 := InvalidateAt(f, e.block, e.page, 0).value;
      assert TrimFrom(g, f1, lpn, 1) == Ok(f1);
    }
  }

  lemma StepTidy(g: Geometry, k: Policy, f: Ftl, op: Op)
    requires 1 <= g.total && g.units == 1 && Tidy(g, f) && op.Shaped(g) && Step(g, k, f, op).Ok?
    ensures Tidy(g, Step(g, k, f, op).value)
  {
    hide Write, Trim, CopyVictims, EraseVictims;
    match op
    case TrimOp(lpn) => TrimTidy(g, f, lpn);
    case WriteOp(lpn, flags, data, victims) =>
      if AnyBit(flags) {
        WriteTidy(g, f, lpn, flags, data);
        var f1 := Write(g, f, lpn, flags, data).value;
        if LowOnBlocks(g, f1, k.threshold) {
          CopyVictimsTidy(g, f1.(reclaimMore := false), victims, 0);
          EraseTidy(g, CopyVictims(g, f1.(reclaimMore := false), victims, 0).value, victims, 0);
        }
      }
  }

  lemma {:induction false} RunTidy(g: Geometry, k: Policy, f: Ftl, ops: seq<Op>)
    requires 1 <= g.total && g.units == 1 && Tidy(g, f) && forall i :: 0 <= i < |ops| ==> ops[i].Shaped(g)
    requires Run(g, k, f, ops).Ok?
    ensures Tidy(g, Run(g, k, f, ops).value)
    decreases |ops|
  {
    hide Tidy, Step;
    if ops != [] {
      StepTidy(g, k, f, ops[0]);
      RunTidy(g, k, Step(g, k, f, ops[0]).value, ops[1..]);
    }
  }

  /** On a device with one unit per page, every entry of the table is mapped after any run. */
  lemma ReachableIsMapped(g: Geometry, k: Policy, ops: seq<Op>)
    requires g.Valid() && g.units == 1 && Fresh(g).Ok? && forall i :: 0 <= i < |ops| ==> ops[i].Shaped(g)
    requires Run(g, k, Fresh(g).value, ops).Ok?
    ensures AllMapped(g, Run(g, k, Fresh(g).value, ops).value)
  {
    hide Run, Fresh, Partition, Forward, Backward, Disciplined, Healthy;
    FreshDevice(g);
    FreshTable(g);
    RunTidy(g, k, Fresh(g).value, ops);
  }

  lemma FreshTable(g: Geometry)
    requires g.Valid() && Fresh(g).Ok? && Inv(g, Fresh(g).value) && View(g, Fresh(g).value) == map[]
    ensures Fresh(g).value.table == map[]
  {
    hide Fresh;
    assert View(g, Fresh(g).value).Keys == Fresh(g).value.table.Keys;
  }

  // ----- exactly when a collection is sound ---------------------------------------------------------------

  lemma {:induction false} CopyBlockStale(g: Geometry, f: Ftl, v: nat, p: nat)
    requires Inv(g, f) && g.units == 1 && AllMapped(g, f) && v in f.used && Full(g, f.pool[v])
    requires !HonestFrom(g, f.pool[v], p) && CopyBlockFrom(g, f, v, p).Ok?
    requires forall q :: 0 <= q < p ==> FtlCollect.Drained(f, v, q)
    ensures var pool' := CopyBlockFrom(g, f, v, p).value.pool; Sober(pool') && Twins(pool')
    decreases g.pages - p
  {
    hide Inv, Twins, Sober, CopyPage, Moved, Full, Honest, FullStayFull, FtlCollect.Drained;
    UsedBlock(g, f, v);
    assert p < g.pages;
    var f1 := CopyPage(g, f, v, p).value;
    if Honest(g, f.pool[v].cells[p]) {
      CopyPageKeeps(g, f, v, p);
      MovedVictim(g, f, f1, v);
      CopyPageTidy(g, f, v, p);
      StillDishonest(g, f, f1, v, p);
      CopyBlockStale(g, f1, v, p + 1);
    } else {
      StaleCopyMakesTwins(g, f, v, p);
      CopyPageSober(g, f, v, p);
      CopyBlockTwins(g, f1, v, p + 1);
    }
  }

  lemma CopyPageSober(g: Geometry, f: Ftl, v: nat, p: nat)
    requires Inv(g, f) && g.units == 1 && CopyPage(g, f, v, p).Ok?
    ensures Sober(CopyPage(g, f, v, p).value.pool)
  {
    hide MoveFrom, Twins, Sober, Acquire, Shape, Partition, Forward, Backward;
    TwinsBreakMapping(g, f);
    SingleCopy(g, f, v, p);
    AcquirePool(g, f, [true]);
    var f1 := Acquire(g, f, [true]).value;
    MoveTwins(g, f1, v, p, f1.active[f1.cursor]);
  }

  lemma StillDishonest(g: Geometry, f: Ftl, f1: Ftl, v: nat, p: nat)
    requires OtherRows(g, f, f1, v, p) && v < |f.pool| && v in f.used && Full(g, f.pool[v])
    requires !HonestFrom(g, f.pool[v], p) && p < |f.pool[v].cells| && Honest(g, f.pool[v].cells[p])
    ensures !HonestFrom(g, f1.pool[v], p + 1)
  {
    hide Honest, Full;
    var q :| p <= q < |f.pool[v].cells| && !Honest(g, f.pool[v].cells[q]);
    assert f1.pool[v].cells[q] == f.pool[v].cells[q];
  }

  lemma {:induction false} CopyVictimsStale(g: Geometry, f: Ftl, victims: seq<nat>, i: nat)
    requires Inv(g, f) && g.units == 1 && AllMapped(g, f) && Victims(g, f, victims)
    requires !HonestVictims(g, f, victims, i) && CopyVictims(g, f, victims, i).Ok?
    ensures var pool' := CopyVictims(g, f, victims, i).value.pool; Sober(pool') && Twins(pool')
    decreases |victims| - i
  {
    hide Inv, Twins, Sober, CopyBlockFrom, Moved, Full, FullStayFull, HonestFrom, Distinct, FtlCollect.Drained, Clean;
    assert i < |victims|;
    var v := victims[i];
    var f1 := CopyBlockFrom(g, f, v, 0).value;
    if HonestFrom(g, f.pool[v], 0) {
      CopyBlockKeeps(g, f, v, 0);
      MovedVictims(g, f, f1, victims);
      CopyBlockMapped(g, f, v);
      StillDishonestVictims(g, f, f1, victims, i);
      CopyVictimsStale(g, f1, victims, i + 1);
    } else {
      CopyBlockStale(g, f, v, 0);
      CopyVictimsTwins(g, f1, victims, i + 1);
    }
  }

  lemma CopyBlockMapped(g: Geometry, f: Ftl, v: nat)
    requires Inv(g, f) && g.units == 1 && AllMapped(g, f) && CopyBlockFrom(g, f, v, 0).Ok?
    ensures AllMapped(g, CopyBlockFrom(g, f, v, 0).value)
  {
    CopyBlockTidy(g, f, v, 0);
  }

  lemma StillDishonestVictims(g: Geometry, f: Ftl, f1: Ftl, victims: seq<nat>, i: nat)
    requires Victims(g, f, victims) && i < |victims| && OtherBlocks(g, f, f1, victims[i])
    requires !HonestVictims(g, f, victims, i) && HonestFrom(g, f.pool[victims[i]], 0)
    ensures !HonestVictims(g, f1, victims, i + 1)
  {
    hide Full, Honest;
    var k :| i <= k < |victims| && victims[k] < |f.pool| && !HonestFrom(g, f.pool[victims[k]], 0);
    assert victims[k] != victims[i] && f1.pool[victims[k]].cells == f.pool[victims[k]].cells;
    assert !HonestFrom(g, f1.pool[victims[k]], 0);
  }

  /** A collection on a device with one unit per page keeps the mapping and the host's view exactly if every
      page of every victim is still valid. */
  lemma SingleUnitCollectIsSoundIff(g: Geometry, f: Ftl, victims: seq<nat>)
    requires Inv(g, f) && g.units == 1 && AllMapped(g, f) && Victims(g, f, victims) && Collect(g, f, victims).Ok?
    ensures var f' := Collect(g, f, victims).value;
            (Inv(g, f') && View(g, f') == View(g, f)) <==>
            forall k, p :: 0 <= k < |victims| && 0 <= p < g.pages ==> At(f.pool, victims[k], p, 0).valid
  {
    hide Forward, Backward, Partition, View, Twins, Sober, CopyVictims, EraseVictims, HonestVictims, Full, Distinct;
    HonestIsValid(g, f, victims);
    if HonestVictims(g, f, victims, 0) {
      CollectIsInvisible(g, f, victims);
    } else {
      DishonestCollect(g, f, victims);
    }
  }

  lemma HonestIsValid(g: Geometry, f: Ftl, victims: seq<nat>)
    requires Shape(g, f) && g.units == 1 && forall k :: 0 <= k < |victims| ==> victims[k] < g.total
    ensures HonestVictims(g, f, victims, 0) <==>
            forall k, p :: 0 <= k < |victims| && 0 <= p < g.pages ==> At(f.pool, victims[k], p, 0).valid
  {
    forall k, p | 0 <= k < |victims| && 0 <= p < g.pages
      ensures Honest(g, f.pool[victims[k]].cells[p]) <==> At(f.pool, victims[k], p, 0).valid
    {
      assert Disciplined(g, f.pool[victims[k]]);
      assert At(f.pool, victims[k], p, 0) == f.pool[victims[k]].cells[p][0];
    }
    if forall k, p :: 0 <= k < |victims| && 0 <= p < g.pages ==> At(f.pool, victims[k], p, 0).valid {
      forall k | 0 <= k < |victims| && victims[k] < |f.pool|
        ensures HonestFrom(g, f.pool[victims[k]], 0)
      {
        assert Disciplined(g, f.pool[victims[k]]);
      }
    } else {
      var k, p :| 0 <= k < |victims| && 0 <= p < g.pages && !At(f.pool, victims[k], p, 0).valid;
      assert Disciplined(g, f.pool[victims[k]]);
      assert !HonestFrom(g, f.pool[victims[k]], 0);
    }
  }

  /** So a host request on such a device refines the host's map exactly if its collection meets no stale page. */
  lemma SingleUnitStepIsSoundIff(g: Geometry, k: Policy, f: Ftl, op: Op)
    requires g.Valid() && Inv(g, f) && g.units == 1 && AllMapped(g, f) && op.Shaped(g)
    requires Legal(g, k, f, op) && Step(g, k, f, op).Ok?
    ensures var r := Step(g, k, f, op).value;
            (Inv(g, r) && View(g, r) == HostStep(g.units, View(g, f), op)) <==> Truthful(g, k, f, op)
  {
    hide Inv, View, HostWrite, Write, Trim, Collect, Victims, FullBlocks, HonestVictims, AllMapped;
    if Truthful(g, k, f, op) {
      StepRefines(g, k, f, op);
    } else {
      var f1 := Write(g, f, op.lpn, op.flags, op.data).value;
      WriteIsHostWrite(g, f, op.lpn, op.flags, op.data);
      ReclaimFlag(g, f1, false);
      VictimsFlag(g, f1, op.victims);
      WriteMapped(g, f, op.lpn, op.flags, op.data);
      DishonestCollect(g, f1.(reclaimMore := false), op.victims);
    }
  }

  lemma WriteMapped(g: Geometry, f: Ftl, lpn: nat, flags: seq<bool>, data: seq<Data>)
    requires Inv(g, f) && g.units == 1 && AllMapped(g, f) && |flags| == |data| == 1 && AnyBit(flags)
    requires Write(g, f, lpn, flags, data).Ok?
    ensures AllMapped(g, Write(g, f, lpn, flags, data).value.(reclaimMore := false))
  {
    WriteTidy(g, f, lpn, flags, data);
  }

  lemma DishonestCollect(g: Geometry, f: Ftl, victims: seq<nat>)
    requires Inv(g, f) && g.units == 1 && AllMapped(g, f) && Victims(g, f, victims) && !HonestVictims(g, f, victims, 0)
    requires Collect(g, f, victims).Ok?
    ensures !Inv(g, Collect(g, f, victims).value)
  {
    hide Forward, Backward, Partition, Twins, Sober;
    hide CopyVictims, EraseVictims, HonestVictims, Full, Distinct, Disciplined;
    CopyVictimsStale(g, f, victims, 0);
    EraseTwins(g, CopyVictims(g, f, victims, 0).value, victims, 0);
    if Inv(g, Collect(g, f, victims).value) { TwinsBreakMapping(g, Collect(g, f, victims).value); }
  }

  // ----- a lost update -------------------------------------------------------------------------------

  /** Four one-page, one-unit blocks and one active slot. */
  const Mono := Geometry(4, 1, 1, 1, false, 10)

  function One(c: Cell, next: nat, wear: nat): Block {
    Block([[c]], [next], wear)
  }

  function Stored(x: Data, valid: bool): Cell {
    Cell(valid, false, 0, [Some(x)])
  }

  const Empty: Cell := Cell(false, true, 0, [])

  /** LPN 0 was written twice, value 1 and then value 2: block 0 is stale, block 1 is live. */
  const Twice: Ftl :=
    Ftl([One(Stored(1, false), 1, 0), One(Stored(2, true), 1, 0), One(Empty, 0, 0), One(Empty, 0, 0)],
        {0, 1}, [2, 3], map[0 := [Ppa(1, 0)]], [1], 0, [true], false)

  /** Block 0 was collected: its stale page was copied to block 2 and now answers for LPN 0. */
  const Lost: Ftl :=
    Ftl([One(Empty, 0, 1), One(Stored(2, true), 1, 0), One(Stored(1, true), 1, 0), One(Empty, 0, 0)],
        {1, 2}, [3, 0], map[0 := [Ppa(2, 0)]], [2], 0, [true], true)

  lemma MonoCopy()
    ensures CopyPage(Mono, Twice, 0, 0) ==
            Ok(Lost.(pool := Twice.pool[2 := One(Stored(1, true), 1, 0)], used := {0, 1, 2}, free := [3]))
  {
    var row := Twice.pool[0].cells[0];
    assert PageMap(Mono, row)[0];
    assert MoveBits(Mono, row) == [true];
    assert Fill([1]) == 1 by { assert Fill([1][..0]) == 0; }
    assert PickFree(1, [2, 3], 0, 0) == 0;
    assert [2, 3][..0] + [2, 3][1..] == [3] && [1][0 := 2] == [2] && Twice.used + {2} == {0, 1, 2};
    var f1 := Twice.(used := {0, 1, 2}, free := [3], active := [2], reclaimMore := true);
    assert Acquire(Mono, Twice, [true]) == Ok(f1);
    assert row[0 := row[0].(valid := false)] == row;
    assert Twice.pool[0].cells[0 := row] == Twice.pool[0].cells;
    assert f1.pool[0 := f1.pool[0]] == f1.pool;
    assert InvalidateAt(f1, 0, 0, 0) == Ok(f1);
    assert [Empty][0 := Stored(1, true)] == [Stored(1, true)] && [0][0 := 1] == [1];
    assert [[Empty]][0 := [Stored(1, true)]] == [[Stored(1, true)]];
    assert Programmed(f1.pool[2], 0, 0, 0, [Some(1)]) == Ok(One(Stored(1, true), 1, 0));
    var f2 := f1.(pool := f1.pool[2 := One(Stored(1, true), 1, 0)], table := map[0 := [Ppa(2, 0)]]);
    assert f1.table[0][0 := Ppa(2, 0)] == [Ppa(2, 0)] && f1.table[0 := [Ppa(2, 0)]] == f2.table;
    assert Program(f1, 2, 0, 0, [Some(1)]) == Ok(f2);
    assert MoveFrom(Mono, f1, 0, 0, row, [true], 2, 0) == MoveFrom(Mono, f2, 0, 0, row, [true], 2, 1) == Ok(f2);
  }

  lemma MonoErased()
    ensures Erased(One(Stored(1, false), 1, 0)) == One(Empty, 0, 1)
  {
    var b := Erased(One(Stored(1, false), 1, 0));
    assert ErasedRow([Stored(1, false)]) == [Empty];
    assert b.cells == [[Empty]] && b.next == [0];
  }

  lemma MonoErase(f: Ftl)
    requires Ok(f) == CopyPage(Mono, Twice, 0, 0)
    ensures EraseVictims(Mono, f, [0], 0) == Ok(Lost)
  {
    MonoCopy();
    MonoErased();
    hide Erased, CopyPage;
    assert InsertAt(f.pool, [3], 1, 1) == 1;
    assert [3][..1] + [0] + [3][1..] == [3, 0] && f.used - {0} == Lost.used;
    assert f.pool[0 := One(Empty, 0, 1)] == Lost.pool;
    assert EraseBlock(Mono, f, 0) == Ok(Lost);
    assert EraseVictims(Mono, f, [0], 0) == EraseVictims(Mono, Lost, [0], 1) == Ok(Lost);
  }

  lemma TwiceShape()
    ensures Shape(Mono, Twice) && Partition(Mono, Twice) && Victims(Mono, Twice, [0])
  {
    assert Fill([1]) == 1 by { assert Fill([1][..0]) == 0; }
    forall b | 0 <= b < 4 ensures Disciplined(Mono, Twice.pool[b]) {}
    hide Disciplined, Fill;
  }

  lemma TwiceMapping()
    ensures Forward(Mono, Twice, {}) && Backward(Mono, Twice, {})
  {
    forall b, p, u | At(Twice.pool, b, p, u).valid
      ensures b == 1 && p == 0 && u == 0
    {
      assert b == 0 || b == 1 || b == 2 || b == 3;
    }
    assert At(Twice.pool, 1, 0, 0) == Stored(2, true);
  }

  lemma TwiceIsSound()
    ensures Inv(Mono, Twice) && Victims(Mono, Twice, [0])
  {
    hide Shape, Partition, Forward, Backward, Victims;
    TwiceShape();
    TwiceMapping();
  }

  lemma MonoViews()
    ensures Consistent'(Mono, Twice) && View(Mono, Twice) == map[0 := [Some(2)]]
    ensures Consistent'(Mono, Lost) && View(Mono, Lost) == map[0 := [Some(1)]]
  {
    assert View(Mono, Twice)[0] == [Some(2)] && View(Mono, Lost)[0] == [Some(1)];
  }

  lemma MonoCopyAll()
    ensures CopyVictims(Mono, Twice, [0], 0) == CopyPage(Mono, Twice, 0, 0)
    ensures CopyPage(Mono, Twice, 0, 0).Ok?
  {
    MonoCopy();
    hide CopyPage;
    var f1 := CopyPage(Mono, Twice, 0, 0).value;
    assert CopyBlockFrom(Mono, Twice, 0, 0) == CopyBlockFrom(Mono, f1, 0, 1) == Ok(f1);
    assert CopyVictims(Mono, Twice, [0], 0) == CopyVictims(Mono, f1, [0], 1) == Ok(f1);
  }

  /** The state of a new device: block 0 is active, the others are free. */
  const MonoOpening: Ftl :=
    Ftl([One(Empty, 0, 0), One(Empty, 0, 0), One(Empty, 0, 0), One(Empty, 0, 0)], {0}, [1, 2, 3], map[], [0], 0,
        [false], false)

  lemma MonoFresh()
    ensures Fresh(Mono) == Ok(MonoOpening)
  {
    var f := Unopened(Mono);
    assert BlankBlock(Mono) == One(Empty, 0, 0) by {
      assert seq(1, _ => Cell(false, true, 0, [])) == [Empty];
      assert BlankBlock(Mono).cells == [[Empty]] && BlankBlock(Mono).next == [0];
    }
    assert f.pool == MonoOpening.pool && f.free == [0, 1, 2, 3] && f.active == [0] && f.ioMap == [false];
    assert PickFree(1, f.free, 0, 0) == 0;
    assert f.free[..0] + f.free[1..] == [1, 2, 3] && f.active[0 := 0] == [0] && f.used + {0} == {0};
    assert TakeFree(Mono, f, 0) == Ok(MonoOpening);
  }

  /** LPN 0 holds value 1 in block 0. */
  const Once: Ftl :=
    MonoOpening.(pool := [One(Stored(1, true), 1, 0), One(Empty, 0, 0), One(Empty, 0, 0), One(Empty, 0, 0)],
                 table := map[0 := [Ppa(0, 0)]], ioMap := [true])

  lemma ProgramEmpty(x: Data)
    ensures Programmed(One(Empty, 0, 0), 0, 0, 0, [Some(x)]) == Ok(One(Stored(x, true), 1, 0))
  {
    assert [Empty][0 := Stored(x, true)] == [Stored(x, true)] && [0][0 := 1] == [1];
    assert [[Empty]][0 := [Stored(x, true)]] == [[Stored(x, true)]];
  }

  lemma MonoFirstWrite()
    ensures Write(Mono, MonoOpening, 0, [true], [1]) == Ok(Once)
  {
    var f1 := Enter(Mono, MonoOpening, 0);
    assert seq(1, _ => Mono.Unmapped()) == [Ppa(4, 1)];
    assert f1.table == map[0 := [Ppa(4, 1)]];
    assert Fill([0]) == 0 by { assert Fill([0][..0]) == 0; }
    var f2 := f1.(ioMap := [true]);
    assert Acquire(Mono, f1, [true]) == Ok(f2);
    assert Merged(Mono, f2, 0, 0, [true], [1]) == [Some(1)];
    ProgramEmpty(1);
    assert f2.pool[0 := One(Stored(1, true), 1, 0)] == Once.pool;
    assert f2.table[0][0 := Ppa(0, 0)] == [Ppa(0, 0)] && f2.table[0 := [Ppa(0, 0)]] == Once.table;
    assert Program(f2, 0, 0, 0, [Some(1)]) == Ok(Once);
    assert ProgramFrom(Mono, f2, 0, 0, [true], [1], 0) == ProgramFrom(Mono, Once, 0, 0, [true], [1], 1) == Ok(Once);
  }

  lemma MonoSecondWrite()
    ensures Write(Mono, Once, 0, [true], [2]) == Ok(Twice.(reclaimMore := true))
  {
    var f1 := Once.(pool := Once.pool[0 := One(Stored(1, false), 1, 0)]);
    assert [Stored(1, true)][0 := Stored(1, false)] == [Stored(1, false)];
    assert [[Stored(1, true)]][0 := [Stored(1, false)]] == [[Stored(1, false)]];
    assert InvalidateAt(Once, 0, 0, 0) == Ok(f1);
    assert InvalidateFrom(Mono, Once, 0, [true], 0) == InvalidateFrom(Mono, f1, 0, [true], 1) == Ok(f1);
    assert Fill([1]) == 1 by { assert Fill([1][..0]) == 0; }
    assert PickFree(1, [1, 2, 3], 0, 0) == 0;
    assert [1, 2, 3][..0] + [1, 2, 3][1..] == [2, 3] && [0][0 := 1] == [1] && f1.used + {1} == {0, 1};
    var f2 := f1.(used := {0, 1}, free := [2, 3], active := [1], reclaimMore := true);
    assert Acquire(Mono, f1, [true]) == Ok(f2);
    assert Merged(Mono, f2, 0, 0, [true], [2]) == [Some(2)];
    ProgramEmpty(2);
    var f3 := Twice.(reclaimMore := true);
    assert f2.pool[1 := One(Stored(2, true), 1, 0)] == f3.pool;
    assert f2.table[0][0 := Ppa(1, 0)] == [Ppa(1, 0)] && f2.table[0 := [Ppa(1, 0)]] == f3.table;
    assert Program(f2, 1, 0, 0, [Some(2)]) == Ok(f3);
    assert ProgramFrom(Mono, f2, 1, 0, [true], [2], 0) == ProgramFrom(Mono, f3, 1, 0, [true], [2], 1) == Ok(f3);
  }

  /** Collecting a stale single-unit block silently brings the overwritten value back. */
  lemma SingleUnitCollectionLosesUpdate()
    ensures Inv(Mono, Twice) && Victims(Mono, Twice, [0]) && View(Mono, Twice) == map[0 := [Some(2)]]
    ensures Collect(Mono, Twice, [0]) == Ok(Lost) && View(Mono, Lost) == map[0 := [Some(1)]]
  {
    hide Inv, Victims, View, CopyPage, CopyVictims, EraseVictims;
    TwiceIsSound();
    MonoViews();
    MonoCopyAll();
    MonoErase(CopyPage(Mono, Twice, 0, 0).value);
  }

  lemma MonoGreedy()
    ensures var f := Twice.(reclaimMore := true);
            GreedyChoice(Mono, f, ReclaimCount(Mono, f, Policy(0.6, Fixed(0))), [0])
  {
    hide Inv;
    TwiceIsSound();
    assert RowCount([Stored(1, false)]) == 0 by { assert RowCount([Stored(1, false)][..0]) == 0; }
    assert CellCount([[Stored(1, false)]]) == 0 by { assert CellCount([[Stored(1, false)]][..0]) == 0; }
    hide Full, RowCount, CellCount;
  }

  const MonoPolicy: Policy := Policy(0.6, Fixed(0))
  const FirstOp: Op := WriteOp(0, [true], [1], [])
  const SecondOp: Op := WriteOp(0, [true], [2], [0])

  lemma MonoFirstStep()
    ensures Step(Mono, MonoPolicy, MonoOpening, FirstOp) == Ok(Once) && Legal(Mono, MonoPolicy, MonoOpening, FirstOp)
  {
    hide Write, Collect, GreedyChoice, ReclaimCount;
    MonoFirstWrite();
    assert [true][0];
    assert !LowOnBlocks(Mono, Once, 0.6);
  }

  lemma MonoSecondStep()
    ensures Step(Mono, MonoPolicy, Once, SecondOp) == Ok(Lost) && Legal(Mono, MonoPolicy, Once, SecondOp)
  {
    hide Write, Collect, GreedyChoice, ReclaimCount, View, Inv, Victims;
    MonoSecondWrite();
    SingleUnitCollectionLosesUpdate();
    MonoGreedy();
    assert [true][0];
    assert LowOnBlocks(Mono, Twice.(reclaimMore := true), 0.6);
    assert Twice.(reclaimMore := true).(reclaimMore := false) == Twice;
  }

  /** Two writes of LPN 0 on a new device, the second of which starts a collection that the greedy policy chooses:
      afterwards the first value is back, although the second was written last. */
  lemma TwoWritesLoseTheSecond()
    ensures var ops := [FirstOp, SecondOp];
            && Fresh(Mono) == Ok(MonoOpening) && LegalRun(Mono, MonoPolicy, MonoOpening, ops)
            && Run(Mono, MonoPolicy, MonoOpening, ops) == Ok(Lost)
            && View(Mono, Lost) == map[0 := [Some(1)]] && LastWritten(ops, 0, 0) == Some(2)
  {
    hide Step, Legal, View, Inv, Victims, Collect;
    MonoFresh();
    MonoFirstStep();
    MonoSecondStep();
    SingleUnitCollectionLosesUpdate();
    assert [FirstOp, SecondOp][1..] == [SecondOp] && [SecondOp][1..] == [];
    assert Run(Mono, MonoPolicy, Once, [SecondOp]) == Run(Mono, MonoPolicy, Lost, []) == Ok(Lost);
    assert LegalRun(Mono, MonoPolicy, Lost, []);
    assert LegalRun(Mono, MonoPolicy, Once, [SecondOp]);
  }
}
