/** Garbage collection (doGarbageCollection, eraseInternal): live data moves, the host sees nothing. */
module FtlCollect {
  import opened Outcomes
  import opened FtlState
  import opened FtlSteps
  import opened FtlInvariant
  import opened FtlWrite

  /** Every block but d keeps its write pointers, and units outside d only ever lose their valid bit. */
  ghost predicate OnlyInto(pool: seq<Block>, pool': seq<Block>, d: nat) {
    && |pool'| == |pool|
    && (forall b :: 0 <= b < |pool| ==> pool'[b].wear == pool[b].wear)
    && (forall b :: 0 <= b < |pool| && b != d ==> pool'[b].next == pool[b].next)
    && (forall b, p, u :: b != d && At(pool', b, p, u).valid ==> At(pool, b, p, u).valid)
  }

  /** Outside block d, only page p of block v changes. */
  ghost predicate OnlyPage(pool: seq<Block>, pool': seq<Block>, v: nat, p: nat, d: nat) {
    forall b, q, u :: b != d && (b != v || q != p) ==> At(pool', b, q, u) == At(pool, b, q, u)
  }

  /** Invalidating a live unit opens a hole for its LPN and shows the host nothing. */
  lemma VacateOne(g: Geometry, f: Ftl, v: nat, p: nat, u: nat)
    requires Inv(g, f) && At(f.pool, v, p, u).valid
    ensures var c := At(f.pool, v, p, u);
            var r := InvalidateAt(f, v, p, u);
            && u < g.Mapped() && c.lpn in f.table && |f.table[c.lpn]| == g.Mapped() && f.table[c.lpn][u] == Ppa(v, p)
            && r.Ok?
            && r.value == f.(pool := r.value.pool)
            && Consistent(g, r.value, {(c.lpn, u)})
            && SameSeen(g, f, r.value)
            && OnlyCell(f.pool, r.value.pool, v, p, u, c.(valid := false))
            && SameWear(f.pool, r.value.pool)
  {
    var c := At(f.pool, v, p, u);
    InvalidateOpensHole(g, f, c.lpn, u, {});
    assert {} + {(c.lpn, u)} == {(c.lpn, u)};
    SameImagesSameSeen(g, f, InvalidateAt(f, v, p, u).value);
  }

  /** Programming the image the host saw at a hole shows the host nothing. */
  lemma RefillOne(g: Geometry, f: Ftl, d: nat, l: nat, u: nat, image: Image)
    requires Consistent(g, f, {(l, u)}) && l in f.table && u < g.Mapped()
    requires d in f.used && f.pool[d].next[u] < g.pages
    requires f.table[l][u] != g.Unmapped() && image == At(f.pool, f.table[l][u].block, f.table[l][u].page, u).image
    ensures var r := Program(f, d, l, u, image);
            && r.Ok?
            && Inv(g, r.value)
            && Filled(f, r.value, d, f.pool[d].next[u], l, u, image)
            && SameSeen(g, f, r.value)
            && r.value.pool == f.pool[d := r.value.pool[d]]
            && r.value.pool[d].next == f.pool[d].next[u := f.pool[d].next[u] + 1]
            && r.value.pool[d].wear == f.pool[d].wear
  {
    ProgramFillsHole(g, f, d, l, u, image, {(l, u)});
    assert {(l, u)} - {(l, u)} == {};
    SeenAfterFill(g, f, Program(f, d, l, u, image).value, d, f.pool[d].next[u], l, u, image, {(l, u)});
  }

  /** Move one live unit of a victim: invalidate it, program its copy in d. */
  lemma MoveOne(g: Geometry, f: Ftl, v: nat, p: nat, d: nat, u: nat)
    requires Inv(g, f) && d in f.used && v != d
    requires u < g.units && f.pool[d].next[u] < g.pages && At(f.pool, v, p, u).valid
    ensures var c := At(f.pool, v, p, u);
            var r1 := InvalidateAt(f, v, p, u);
            && r1.Ok?
            && var r := Program(r1.value, d, c.lpn, u, c.image);
            && r.Ok?
            && Inv(g, r.value)
            && r.value == f.(pool := r.value.pool, table := r.value.table)
            && SameSeen(g, f, r.value)
            && OnlyInto(f.pool, r.value.pool, d)
            && OnlyPage(f.pool, r.value.pool, v, p, d)
            && r.value.pool[d].next == f.pool[d].next[u := f.pool[d].next[u] + 1]
            && !At(r.value.pool, v, p, u).valid
            && (forall i :: i != u ==> At(r.value.pool, v, p, i) == At(f.pool, v, p, i))
  {
    hide InvalidateAt, Program;
    VacateOne(g, f, v, p, u);
    var c := At(f.pool, v, p, u);
    RefillOne(g, InvalidateAt(f, v, p, u).value, d, c.lpn, u, c.image);
  }

  lemma {:induction false} MoveFromKeeps(
      g: Geometry, f: Ftl, v: nat, p: nat, row: seq<Cell>, bits: seq<bool>, d: nat, u: nat)
    requires Inv(g, f) && v != d && RoomFrom(g, f, d, u) && |bits| == |row| == g.units
    requires forall i :: u <= i < g.Mapped() && bits[i] ==> row[i].valid && At(f.pool, v, p, i) == row[i]
    ensures var r := MoveFrom(g, f, v, p, row, bits, d, u);
            && r.Ok?
            && Inv(g, r.value)
            && r.value == f.(pool := r.value.pool, table := r.value.table)
            && SameSeen(g, f, r.value)
            && OnlyInto(f.pool, r.value.pool, d)
            && OnlyPage(f.pool, r.value.pool, v, p, d)
            && (forall i :: 0 <= i < g.units ==>
                  r.value.pool[d].next[i] <= f.pool[d].next[i] + if u <= i then 1 else 0)
            && (forall i :: u <= i < g.Mapped() && bits[i] ==> !At(r.value.pool, v, p, i).valid)
    decreases g.Mapped() - u
  {
    hide InvalidateAt, Program, Partition, Forward, Backward;
    if u < g.Mapped() {
      if bits[u] {
        MoveOne(g, f, v, p, d, u);
        var f1 := InvalidateAt(f, v, p, u).value;
        var f2 := Program(f1, d, row[u].lpn, u, row[u].image).value;
        MoveFromKeeps(g, f2, v, p, row, bits, d, u + 1);
      } else {
        MoveFromKeeps(g, f, v, p, row, bits, d, u + 1);
      }
    }
  }

  /** Blocks that are full before stay in use, stay full, and only lose valid units. */
  ghost predicate FullStayFull(g: Geometry, f: Ftl, f': Ftl) {
    && |f'.pool| == |f.pool| && f.used <= f'.used
    && (forall b :: 0 <= b < |f.pool| ==> f'.pool[b].wear == f.pool[b].wear)
    && forall b :: 0 <= b < |f.pool| && b in f.used && Full(g, f.pool[b]) ==>
         && f'.pool[b].next == f.pool[b].next
         && forall p, u :: At(f'.pool, b, p, u).valid ==> At(f.pool, b, p, u).valid
  }

  ghost predicate Drained(f: Ftl, v: nat, p: nat) {
    forall u :: !At(f.pool, v, p, u).valid
  }

  /** What collection does not change for the host and for the blocks being collected. */
  ghost predicate Moved(g: Geometry, f: Ftl, f': Ftl) {
    && Inv(g, f) && Inv(g, f')
    && SameSeen(g, f, f')
    && FullStayFull(g, f, f')
    && (Healthy(f) ==> Healthy(f'))
  }

  lemma MovedTrans(g: Geometry, f0: Ftl, f1: Ftl, f2: Ftl)
    requires Moved(g, f0, f1) && Moved(g, f1, f2)
    ensures Moved(g, f0, f2)
  {
  }

  // ----- pages whose report is right -----------------------------------------------------------------

  /** getPageInfo reports the valid bits of the page: always with several units, and with a single unit
      only if the page is valid, because then every page is reported as live. */
  ghost predicate Honest(g: Geometry, row: seq<Cell>) {
    1 < g.units || AnyValid(row)
  }

  ghost predicate HonestFrom(g: Geometry, b: Block, p: nat) {
    forall q :: p <= q < |b.cells| ==> Honest(g, b.cells[q])
  }

  /** Victims i, i + 1, ... are reported as they are. */
  ghost predicate HonestVictims(g: Geometry, f: Ftl, victims: seq<nat>, i: nat) {
    forall k :: i <= k < |victims| && victims[k] < |f.pool| ==> HonestFrom(g, f.pool[victims[k]], 0)
  }

  /** Pages of full blocks other than page p of v are untouched. */
  ghost predicate OtherRows(g: Geometry, f: Ftl, f': Ftl, v: nat, p: nat) {
    && |f'.pool| == |f.pool|
    && forall b :: 0 <= b < |f.pool| && b in f.used && Full(g, f.pool[b]) ==>
         && |f'.pool[b].cells| == |f.pool[b].cells|
         && forall q :: 0 <= q < |f.pool[b].cells| && (b != v || q != p) ==> f'.pool[b].cells[q] == f.pool[b].cells[q]
  }

  lemma OnlyPageOtherRows(g: Geometry, f: Ftl, f': Ftl, v: nat, p: nat, d: nat)
    requires Shape(g, f) && Shape(g, f') && OnlyPage(f.pool, f'.pool, v, p, d) && d < g.total && !Full(g, f.pool[d])
    ensures OtherRows(g, f, f', v, p)
  {
    forall b, q | 0 <= b < g.total && b != d && 0 <= q < g.pages && (b != v || q != p)
      ensures f'.pool[b].cells[q] == f.pool[b].cells[q]
    {
      assert Disciplined(g, f.pool[b]) && Disciplined(g, f'.pool[b]);
      assert forall u :: 0 <= u < g.units ==>
        f'.pool[b].cells[q][u] == At(f'.pool, b, q, u) == At(f.pool, b, q, u) == f.pool[b].cells[q][u];
    }
  }

  /** Full blocks other than v keep all their cells. */
  ghost predicate OtherBlocks(g: Geometry, f: Ftl, f': Ftl, v: nat) {
    && |f'.pool| == |f.pool|
    && forall b :: 0 <= b < |f.pool| && b in f.used && Full(g, f.pool[b]) && b != v ==>
         f'.pool[b].cells == f.pool[b].cells
  }

  lemma OtherRowsOthers(g: Geometry, f: Ftl, f1: Ftl, f2: Ftl, v: nat, p: nat)
    requires OtherRows(g, f, f1, v, p) && OtherBlocks(g, f1, f2, v) && FullStayFull(g, f, f1)
    ensures OtherBlocks(g, f, f2, v)
  {
    forall b | 0 <= b < |f.pool| && b in f.used && Full(g, f.pool[b]) && b != v
      ensures f2.pool[b].cells == f.pool[b].cells
    {
      assert f1.pool[b].cells == f.pool[b].cells;
    }
  }

  lemma HonestRest(g: Geometry, f: Ftl, f1: Ftl, v: nat, p: nat)
    requires OtherRows(g, f, f1, v, p) && v < |f.pool| && v in f.used && Full(g, f.pool[v])
    requires HonestFrom(g, f.pool[v], p)
    ensures HonestFrom(g, f1.pool[v], p + 1)
  {
  }

  lemma HonestOthers(g: Geometry, f: Ftl, f1: Ftl, victims: seq<nat>, i: nat)
    requires Victims(g, f, victims) && i < |victims| && HonestVictims(g, f, victims, i)
    requires OtherBlocks(g, f, f1, victims[i])
    ensures HonestVictims(g, f1, victims, i + 1)
  {
    forall k | i + 1 <= k < |victims|
      ensures victims[k] < |f1.pool| ==> HonestFrom(g, f1.pool[victims[k]], 0)
    {
      assert victims[k] != victims[i] && f1.pool[victims[k]].cells == f.pool[victims[k]].cells;
    }
  }

  /** Only units that are mapped can be valid, so a page with a set bit has one among the moved units. */
  lemma LiveRow(g: Geometry, f: Ftl, v: nat, p: nat)
    requires Inv(g, f) && v < g.total && p < g.pages && Honest(g, f.pool[v].cells[p])
    ensures var row := f.pool[v].cells[p];
            && |row| == |PageMap(g, row)| == |MoveBits(g, row)| == g.units
            && (forall i :: 0 <= i < g.units ==> At(f.pool, v, p, i) == row[i])
            && (!AnyBit(PageMap(g, row)) <==> Drained(f, v, p))
            && (AnyBit(PageMap(g, row)) ==>
                  forall i :: 0 <= i < g.Mapped() ==> (MoveBits(g, row)[i] <==> row[i].valid))
  {
    var row := f.pool[v].cells[p];
    forall i | 0 <= i < g.units && row[i].valid
      ensures i < g.Mapped()
    {
      assert At(f.pool, v, p, i).valid;
    }
    if AnyBit(PageMap(g, row)) {
      var i :| 0 <= i < g.units && PageMap(g, row)[i];
      assert At(f.pool, v, p, i).valid;
    } else {
      forall u ensures !At(f.pool, v, p, u).valid {
        assert 0 <= u < g.units ==> !PageMap(g, row)[u];
      }
    }
  }

  lemma AcquireMoves(g: Geometry, f: Ftl, ioMap: seq<bool>)
    requires Inv(g, f) && Acquire(g, f, ioMap).Ok?
    ensures Moved(g, f, Acquire(g, f, ioMap).value)
  {
    AcquireKeeps(g, f, ioMap, {});
    if Healthy(f) { AcquireStaysHealthy(g, f, ioMap, {}); }
    SameImagesSameSeen(g, f, Acquire(g, f, ioMap).value);
  }

  /** Moving all live units of a page into a block with room leaves the page without valid units. */
  lemma MoveRow(g: Geometry, f: Ftl, v: nat, p: nat, d: nat)
    requires Inv(g, f) && v < g.total && v != d && p < g.pages && Honest(g, f.pool[v].cells[p])
    requires d in f.used && Roomy(g, f.pool[d]) && AnyBit(PageMap(g, f.pool[v].cells[p]))
    ensures var row := f.pool[v].cells[p];
            var r := MoveFrom(g, f, v, p, row, MoveBits(g, row), d, 0);
            && r.Ok?
            && Moved(g, f, r.value)
            && r.value == f.(pool := r.value.pool, table := r.value.table)
            && Drained(r.value, v, p)
            && OnlyPage(f.pool, r.value.pool, v, p, d)
            && (forall b :: 0 <= b < g.total && b != d ==> r.value.pool[b].next == f.pool[b].next)
            && (forall i :: 0 <= i < g.units ==> r.value.pool[d].next[i] <= f.pool[d].next[i] + 1)
  {
    UsedBlock(g, f, d);
    hide MoveFrom, Moved, Drained, SameSeen, Partition, Forward, Backward, Full, OnlyPage, Honest, PageMap, MoveBits;
    var row := f.pool[v].cells[p];
    LiveRow(g, f, v, p);
    RoomyIffNotFull(g, f.pool[d]);
    MoveFromKeeps(g, f, v, p, row, MoveBits(g, row), d, 0);
    MovedInto(g, f, MoveFrom(g, f, v, p, row, MoveBits(g, row), d, 0).value, v, p, d);
  }

  /** Data that moved only into one block with room counts as moved. */
  lemma MovedInto(g: Geometry, f: Ftl, f': Ftl, v: nat, p: nat, d: nat)
    requires Inv(g, f) && Inv(g, f') && SameSeen(g, f, f') && OnlyInto(f.pool, f'.pool, d)
    requires f' == f.(pool := f'.pool, table := f'.table) && v != d && d < g.total && !Full(g, f.pool[d])
    requires forall u :: 0 <= u < g.Mapped() && At(f.pool, v, p, u).valid ==> !At(f'.pool, v, p, u).valid
    ensures Moved(g, f, f') && Drained(f', v, p)
  {
    forall u
      ensures !At(f'.pool, v, p, u).valid
    {
      assert At(f'.pool, v, p, u).valid ==> At(f.pool, v, p, u).valid;
    }
  }

  /** Copying one page out of a full victim. */
  lemma CopyPageKeeps(g: Geometry, f: Ftl, v: nat, p: nat)
    requires Inv(g, f) && v in f.used && Full(g, f.pool[v]) && p < g.pages && Honest(g, f.pool[v].cells[p])
    ensures var r := CopyPage(g, f, v, p);
            && (r.Panic? ==> r.why in {Corrupted, NoFreeBlock})
            && (r.Panic? && Healthy(f) ==> r.why == NoFreeBlock)
            && (r.Ok? ==> Moved(g, f, r.value) && Drained(r.value, v, p) && OtherRows(g, f, r.value, v, p))
  {
    var row := f.pool[v].cells[p];
    LiveRow(g, f, v, p);
    if AnyBit(PageMap(g, row)) {
      var bits := MoveBits(g, row);
      AcquireOutcome(g, f, bits, {});
      if Acquire(g, f, bits).Ok? {
        AcquireKeeps(g, f, bits, {});
        AcquireMoves(g, f, bits);
        var f1 := Acquire(g, f, bits).value;
        var d := f1.active[f1.cursor];
        RoomyIffNotFull(g, f1.pool[d]);
        MoveRow(g, f1, v, p, d);
        var f2 := MoveFrom(g, f1, v, p, row, bits, d, 0).value;
        MovedTrans(g, f, f1, f2);
        OnlyPageOtherRows(g, f1, f2, v, p, d);
      }
    }
  }

  // ----- copying whole victims ---------------------------------------------------------------------

  /** A full victim stays one while data moves, and what was drained stays drained. */
  lemma MovedVictim(g: Geometry, f: Ftl, f': Ftl, v: nat)
    requires Moved(g, f, f') && v in f.used && Full(g, f.pool[v])
    ensures Inv(g, f') && v in f'.used && Full(g, f'.pool[v]) && (Healthy(f) ==> Healthy(f'))
    ensures forall q :: Drained(f, v, q) ==> Drained(f', v, q)
  {
  }

  lemma {:induction false} CopyBlockKeeps(g: Geometry, f: Ftl, v: nat, p: nat)
    requires Inv(g, f) && v in f.used && Full(g, f.pool[v]) && HonestFrom(g, f.pool[v], p)
    requires forall q :: 0 <= q < p ==> Drained(f, v, q)
    ensures var r := CopyBlockFrom(g, f, v, p);
            && (r.Panic? ==> r.why in {Corrupted, NoFreeBlock})
            && (r.Panic? && Healthy(f) ==> r.why == NoFreeBlock)
            && (r.Ok? ==>
                  && Moved(g, f, r.value) && OtherBlocks(g, f, r.value, v)
                  && forall q :: 0 <= q < g.pages ==> Drained(r.value, v, q))
    decreases g.pages - p
  {
    hide Moved, Inv, Full, Drained, Healthy, CopyPage, Honest, HonestFrom, OtherRows, OtherBlocks, FullStayFull;
    UsedBlock(g, f, v);
    if p < g.pages {
      HonestPage(g, f.pool[v], p);
      CopyPageKeeps(g, f, v, p);
      var r := CopyPage(g, f, v, p);
      if r.Ok? {
        MovedVictim(g, f, r.value, v);
        MovedParts(g, f, r.value);
        HonestRest(g, f, r.value, v, p);
        CopyBlockKeeps(g, r.value, v, p + 1);
        if CopyBlockFrom(g, r.value, v, p + 1).Ok? {
          MovedTrans(g, f, r.value, CopyBlockFrom(g, r.value, v, p + 1).value);
          OtherRowsOthers(g, f, r.value, CopyBlockFrom(g, r.value, v, p + 1).value, v, p);
        }
      }
    } else {
      MovedRefl(g, f);
      OtherBlocksRefl(g, f, v);
    }
  }

  lemma HonestPage(g: Geometry, b: Block, p: nat)
    requires HonestFrom(g, b, p) && p < |b.cells|
    ensures Honest(g, b.cells[p])
  {
  }

  lemma OtherBlocksRefl(g: Geometry, f: Ftl, v: nat)
    ensures OtherBlocks(g, f, f, v)
  {
  }

  lemma HonestVictim(g: Geometry, f: Ftl, victims: seq<nat>, i: nat)
    requires Victims(g, f, victims) && HonestVictims(g, f, victims, i) && i < |victims|
    ensures victims[i] < |f.pool| && HonestFrom(g, f.pool[victims[i]], 0)
  {
  }

  lemma UsedBlock(g: Geometry, f: Ftl, v: nat)
    requires Inv(g, f) && v in f.used
    ensures Shape(g, f) && v < g.total == |f.pool| && |f.pool[v].cells| == g.pages && Disciplined(g, f.pool[v])
  {
  }

  lemma MovedParts(g: Geometry, f: Ftl, f': Ftl)
    requires Moved(g, f, f')
    ensures Inv(g, f') && FullStayFull(g, f, f') && (Healthy(f) ==> Healthy(f'))
  {
  }

  lemma MovedRefl(g: Geometry, f: Ftl)
    requires Inv(g, f)
    ensures Moved(g, f, f)
  {
  }

  /** Victims are distinct in-use blocks that are full. */
  ghost predicate Victims(g: Geometry, f: Ftl, victims: seq<nat>) {
    && Distinct(victims)
    && forall i :: 0 <= i < |victims| ==>
         victims[i] in f.used && victims[i] < |f.pool| && Full(g, f.pool[victims[i]])
  }

  ghost predicate Clean(g: Geometry, f: Ftl, v: nat) {
    forall p :: 0 <= p < g.pages ==> Drained(f, v, p)
  }

  lemma MovedVictims(g: Geometry, f: Ftl, f': Ftl, victims: seq<nat>)
    requires Moved(g, f, f') && Victims(g, f, victims)
    ensures Inv(g, f') && Victims(g, f', victims) && (Healthy(f) ==> Healthy(f'))
    ensures forall k :: 0 <= k < |victims| && Clean(g, f, victims[k]) ==> Clean(g, f', victims[k])
  {
    forall k | 0 <= k < |victims|
      ensures victims[k] in f'.used && Full(g, f'.pool[victims[k]])
      ensures Clean(g, f, victims[k]) ==> Clean(g, f', victims[k])
    {
      MovedVictim(g, f, f', victims[k]);
    }
  }

  /** The copy phase never panics except for want of a destination, and leaves no victim with a valid
      unit. */
  lemma {:induction false} CopyVictimsKeeps(g: Geometry, f: Ftl, victims: seq<nat>, i: nat)
    requires Inv(g, f) && Victims(g, f, victims) && HonestVictims(g, f, victims, i)
    requires forall k :: 0 <= k < i && k < |victims| ==> Clean(g, f, victims[k])
    ensures var r := CopyVictims(g, f, victims, i);
            && (r.Panic? ==> r.why in {Corrupted, NoFreeBlock})
            && (r.Panic? && Healthy(f) ==> r.why == NoFreeBlock)
            && (r.Ok? ==>
                  && Moved(g, f, r.value) && Victims(g, r.value, victims)
                  && forall k :: 0 <= k < |victims| ==> Clean(g, r.value, victims[k]))
    decreases |victims| - i
  {
    hide Moved, Inv, Full, Drained, Healthy, CopyBlockFrom, HonestVictims, HonestFrom, OtherBlocks;
    if i < |victims| {
      HonestVictim(g, f, victims, i);
      CopyBlockKeeps(g, f, victims[i], 0);
      var r := CopyBlockFrom(g, f, victims[i], 0);
      if r.Ok? {
        MovedVictims(g, f, r.value, victims);
        HonestOthers(g, f, r.value, victims, i);
        CopyVictimsKeeps(g, r.value, victims, i + 1);
        if CopyVictims(g, r.value, victims, i + 1).Ok? {
          MovedTrans(g, f, r.value, CopyVictims(g, r.value, victims, i + 1).value);
        }
      }
    } else {
      MovedRefl(g, f);
    }
  }

  // ----- erasing -----------------------------------------------------------------------------------

  function Inserted<T>(s: seq<T>, i: nat, x: T): (r: seq<T>)
    requires i <= |s|
    ensures |r| == |s| + 1 && r[i] == x
    ensures forall k :: 0 <= k < |r| && k != i ==> r[k] == s[if k < i then k else k - 1]
    ensures forall y :: y in s ==> y in r
  {
    s[..i] + [x] + s[i..]
  }

  lemma ErasedStaysDisciplined(g: Geometry, b: Block)
    requires Disciplined(g, b)
    ensures Disciplined(g, Erased(b)) && Blank(Erased(b)) && Erased(b).wear == b.wear + 1
  {
  }

  lemma CleanIffNoValid(g: Geometry, f: Ftl, v: nat)
    requires Shape(g, f) && v < g.total
    ensures Clean(g, f, v) <==> !HoldsValid(f.pool[v])
  {
    if HoldsValid(f.pool[v]) {
      var p :| 0 <= p < g.pages && AnyValid(f.pool[v].cells[p]);
      var u :| 0 <= u < g.units && f.pool[v].cells[p][u].valid;
      assert At(f.pool, v, p, u).valid;
      assert !Drained(f, v, p);
    } else {
      forall p, u | 0 <= p < g.pages
        ensures !At(f.pool, v, p, u).valid
      {
        assert !AnyValid(f.pool[v].cells[p]);
      }
    }
  }

  /** A worn block leaves the in-use set for good. */
  lemma RetireKeepsPartition(g: Geometry, f: Ftl, v: nat, blk: Block)
    requires |f.pool| == g.total && Partition(g, f) && v in f.used && g.worn <= blk.wear
    ensures Partition(g, f.(pool := f.pool[v := blk], used := f.used - {v}))
  {
  }

  /** An erased block leaves the in-use set for its place in the free list. */
  lemma ReturnKeepsPartition(g: Geometry, f: Ftl, v: nat, blk: Block, i: nat)
    requires |f.pool| == g.total && Partition(g, f) && v in f.used && Blank(blk) && i <= |f.free|
    requires forall k :: i <= k < |f.free| ==> blk.wear <= f.pool[f.free[k]].wear
    requires i == 0 || f.pool[f.free[i - 1]].wear <= blk.wear
    ensures Partition(g, f.(pool := f.pool[v := blk], used := f.used - {v}, free := Inserted(f.free, i, v)))
  {
    InsertedInOrder(f.pool, f.free, v, blk, i);
  }

  lemma InsertedInOrder(pool: seq<Block>, free: seq<nat>, v: nat, blk: Block, i: nat)
    requires v < |pool| && v !in free && i <= |free| && forall k :: 0 <= k < |free| ==> free[k] < |pool|
    requires Distinct(free) && SortedByWear(pool, free)
    requires forall k :: i <= k < |free| ==> blk.wear <= pool[free[k]].wear
    requires i == 0 || pool[free[i - 1]].wear <= blk.wear
    ensures Distinct(Inserted(free, i, v)) && SortedByWear(pool[v := blk], Inserted(free, i, v))
  {
    var free', pool' := Inserted(free, i, v), pool[v := blk];
    assert forall k :: 0 <= k < i ==> pool[free[k]].wear <= blk.wear;
    assert forall k :: 0 <= k < |free| ==> free[k] != v && pool'[free[k]] == pool[free[k]];
  }

  /** A table entry never points into a block without valid units, so erasing it loses nothing. */
  lemma EraseLosesNothing(g: Geometry, f: Ftl, f': Ftl, v: nat)
    requires Inv(g, f) && v < g.total && Clean(g, f, v) && |f.pool| == |f'.pool|
    requires f'.table == f.table && f'.used == f.used - {v} && f'.pool == f.pool[v := Erased(f.pool[v])]
    ensures Forward(g, f', {}) && Backward(g, f', {}) && SameSeen(g, f, f')
  {
    forall p, u
      ensures !At(f.pool, v, p, u).valid && !At(f'.pool, v, p, u).valid
    {
      assert 0 <= p < g.pages ==> Drained(f, v, p);
    }
    assert forall b, p, u :: b != v ==> At(f'.pool, b, p, u) == At(f.pool, b, p, u);
  }

  lemma VictimInPool(g: Geometry, f: Ftl, v: nat)
    requires Shape(g, f) && Partition(g, f) && v in f.used
    ensures |f.pool| == g.total && v < g.total && Disciplined(g, f.pool[v])
  {
  }

  lemma ReleaseKeepsPartition(g: Geometry, f: Ftl, v: nat)
    requires Shape(g, f) && Partition(g, f) && v in f.used && EraseBlock(g, f, v).Ok?
    ensures Partition(g, EraseBlock(g, f, v).value)
  {
    VictimInPool(g, f, v);
    hide Disciplined, Erased, HoldsValid, Partition, Shape, Blank;
    ErasedStaysDisciplined(g, f.pool[v]);
    var blk := Erased(f.pool[v]);
    if g.worn <= blk.wear {
      RetireKeepsPartition(g, f, v, blk);
    } else {
      var i := InsertAt(f.pool, f.free, blk.wear, |f.free|);
      assert f.free[..i] + [v] + f.free[i..] == Inserted(f.free, i, v);
      ReturnKeepsPartition(g, f, v, blk, i);
    }
  }

  /** Erasing a block in use fails exactly if it still holds a valid unit, or if it should join an empty
      free list. */
  lemma EraseOutcome(g: Geometry, f: Ftl, v: nat)
    requires Shape(g, f) && Partition(g, f) && v in f.used
    ensures var r := EraseBlock(g, f, v);
            && (r == Panic(VictimHoldsValidPages) <==> !Clean(g, f, v))
            && (r == Panic(EmptyFreeList) <==> Clean(g, f, v) && f.free == [] && f.pool[v].wear + 1 < g.worn)
            && (r.Panic? ==> r.why in {VictimHoldsValidPages, EmptyFreeList})
            && (r.Ok? ==>
                  && r.value.used == f.used - {v}
                  && r.value.pool == f.pool[v := Erased(f.pool[v])]
                  && r.value == f.(pool := r.value.pool, used := r.value.used, free := r.value.free)
                  && |r.value.free| == |f.free| + if f.pool[v].wear + 1 < g.worn then 1 else 0)
  {
    hide Disciplined, Clean;
    CleanIffNoValid(g, f, v);
  }

  lemma EraseBlockKeeps(g: Geometry, f: Ftl, v: nat)
    requires Inv(g, f) && v in f.used && v < g.total && Clean(g, f, v) && EraseBlock(g, f, v).Ok?
    ensures Inv(g, EraseBlock(g, f, v).value) && SameSeen(g, f, EraseBlock(g, f, v).value)
  {
    hide EraseBlock, Partition, Forward, Backward, SameSeen, Erased, Disciplined;
    EraseOutcome(g, f, v);
    ReleaseKeepsPartition(g, f, v);
    ErasedStaysDisciplined(g, f.pool[v]);
    EraseLosesNothing(g, f, EraseBlock(g, f, v).value, v);
  }
}
