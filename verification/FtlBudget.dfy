/** Enough free blocks: when garbage collection cannot run out of destinations. */
module FtlBudget {
  import opened Arithmetic
  import opened FtlState
  import opened FtlSteps
  import opened FtlInvariant
  import opened FtlCollect
  import opened FtlGarbage
  import opened FtlSlots

  /** The free list covers n more page copies even though the active blocks are partly written. */
  ghost predicate Affordable(g: Geometry, f: Ftl, n: nat) {
    && (forall s :: 0 <= s < |f.active| ==> f.active[s] < |f.pool|)
    && Level(f.pool, f.active) + n <= g.pages * |f.free| + g.pages
  }

  lemma ActiveLevel(g: Geometry, f: Ftl)
    requires Inv(g, f)
    ensures Level(f.pool, f.active) <= g.pages * g.slots
    ensures forall s :: 0 <= s < g.slots ==> Fill(f.pool[f.active[s]].next) <= Level(f.pool, f.active)
  {
    forall s | 0 <= s < g.slots
      ensures Fill(f.pool[f.active[s]].next) <= g.pages
    {
      assert Disciplined(g, f.pool[f.active[s]]);
    }
    LevelBound(f.pool, f.active, g.pages);
  }

  /** A full active block means that the free list is not empty. */
  lemma AcquireAffordable(g: Geometry, f: Ftl, bits: seq<bool>, n: nat)
    requires Inv(g, f) && Healthy(f) && Affordable(g, f, n + 1)
    ensures Acquire(g, f, bits).Ok?
  {
    hide Disciplined, Partition, Forward, Backward, Acquire, Level;
    AcquireOutcome(g, f, bits, {});
    ActiveLevel(g, f);
  }

  lemma PaidAffordable(g: Geometry, f: Ftl, f': Ftl, n: nat)
    requires Affordable(g, f, n + 1) && exists m: nat :: m <= 1 && Paid(g, f, f', m)
    ensures Affordable(g, f', n)
  {
  }

  lemma CopyPageAffordable(g: Geometry, f: Ftl, v: nat, p: nat, n: nat)
    requires Inv(g, f) && Healthy(f) && v in f.used && Full(g, f.pool[v]) && p < g.pages
    requires Honest(g, f.pool[v].cells[p])
    requires Affordable(g, f, n + 1)
    ensures CopyPage(g, f, v, p).Ok? && Affordable(g, CopyPage(g, f, v, p).value, n)
  {
    hide Disciplined, Partition, Forward, Backward, Acquire, Affordable;
    hide Paid, MoveFrom, MoveBits, PageMap, Full, Moved, Honest;
    UsedBlock(g, f, v);
    var row := f.pool[v].cells[p];
    if AnyBit(PageMap(g, row)) {
      var bits := MoveBits(g, row);
      AcquireAffordable(g, f, bits, n);
      AcquireKeeps(g, f, bits, {});
      var f1 := Acquire(g, f, bits).value;
      RoomyIffNotFull(g, f1.pool[f1.active[f1.cursor]]);
      MoveRow(g, f1, v, p, f1.active[f1.cursor]);
    }
    CopyPageSlots(g, f, v, p);
    LiveBound(g, [row]);
    PaidAffordable(g, f, CopyPage(g, f, v, p).value, n);
  }

  lemma {:induction false} CopyBlockAffordable(g: Geometry, f: Ftl, v: nat, p: nat, n: nat)
    requires Inv(g, f) && Healthy(f) && v in f.used && Full(g, f.pool[v]) && p <= g.pages && HonestFrom(g, f.pool[v], p)
    requires Affordable(g, f, g.pages - p + n)
    ensures CopyBlockFrom(g, f, v, p).Ok? && Affordable(g, CopyBlockFrom(g, f, v, p).value, n)
    decreases g.pages - p
  {
    hide Inv, Healthy, Full, Moved, CopyPage, Affordable, Honest, HonestFrom, OtherRows;
    UsedBlock(g, f, v);
    if p < g.pages {
      HonestPage(g, f.pool[v], p);
      CopyPageAffordable(g, f, v, p, g.pages - (p + 1) + n);
      CopyPageKeeps(g, f, v, p);
      var f1 := CopyPage(g, f, v, p).value;
      MovedVictim(g, f, f1, v);
      MovedParts(g, f, f1);
      HonestRest(g, f, f1, v, p);
      CopyBlockAffordable(g, f1, v, p + 1, n);
    }
  }

  /** Pages scanned in n victims. */
  function Scan(g: Geometry, n: nat): nat {
    if n == 0 then 0 else g.pages + Scan(g, n - 1)
  }

  lemma ScanIsProduct(g: Geometry, n: nat)
    ensures Scan(g, n) == g.pages * n
  {
    if n > 0 {
      ScanIsProduct(g, n - 1);
      Times(g.pages, n - 1);
    }
  }

  lemma {:induction false} CopyVictimsAffordable(g: Geometry, f: Ftl, victims: seq<nat>, i: nat)
    requires Inv(g, f) && Healthy(f) && Victims(g, f, victims) && i <= |victims| && HonestVictims(g, f, victims, i)
    requires Affordable(g, f, Scan(g, |victims| - i))
    ensures CopyVictims(g, f, victims, i).Ok?
    decreases |victims| - i
  {
    hide Inv, Healthy, Full, Moved, CopyBlockFrom, Affordable, Victims, FullStayFull, Clean;
    hide HonestVictims, HonestFrom, OtherBlocks;
    if i < |victims| {
      var v := victims[i];
      VictimIs(g, f, victims, i);
      HonestVictim(g, f, victims, i);
      CopyBlockAffordable(g, f, v, 0, Scan(g, |victims| - (i + 1)));
      CopyBlockKeeps(g, f, v, 0);
      var f1 := CopyBlockFrom(g, f, v, 0).value;
      MovedVictims(g, f, f1, victims);
      MovedParts(g, f, f1);
      HonestOthers(g, f, f1, victims, i);
      CopyVictimsAffordable(g, f1, victims, i + 1);
    }
  }

  lemma Cancel(a: nat, x: int, y: int)
    requires 1 <= a && a * x <= a * y
    ensures x <= y
  {
    assert a * (y - x) >= 0;
    NegativeProduct(a, y - x);
  }

  lemma NegativeProduct(a: nat, d: int)
    requires 1 <= a
    ensures d < 0 ==> a * d < 0
  {
  }

  lemma Distribute(a: nat, x: nat, y: nat, z: nat)
    ensures a * (x + y + z) == a * x + a * y + a * z
  {
  }

  lemma {:induction false} RowsScanned(g: Geometry, pool: seq<Block>, victims: seq<nat>)
    requires forall k :: 0 <= k < |victims| ==> victims[k] < |pool| && |pool[victims[k]].cells| == g.pages
    ensures |Rows(pool, victims)| == Scan(g, |victims|)
    decreases |victims|
  {
    if victims != [] { RowsScanned(g, pool, victims[1..]); }
  }

  /** The pages that have to be copied out of the victims. */
  ghost function LivePages(g: Geometry, f: Ftl, victims: seq<nat>): nat
    requires forall k :: 0 <= k < |victims| ==> victims[k] < |f.pool|
  {
    Live(g, Rows(f.pool, victims))
  }

  /** Blocks taken while copying are paid for by live pages, up to the active blocks' unused pages. */
  lemma CopyTakesLivePages(g: Geometry, f: Ftl, victims: seq<nat>)
    requires Inv(g, f) && Healthy(f) && Victims(g, f, victims) && HonestVictims(g, f, victims, 0)
    requires CopyVictims(g, f, victims, 0).Ok?
    ensures forall k :: 0 <= k < |victims| ==> victims[k] < |f.pool|
    ensures var f1 := CopyVictims(g, f, victims, 0).value;
            g.pages * |f.free| <= g.pages * |f1.free| + LivePages(g, f, victims) + g.pages * g.slots
    ensures LivePages(g, f, victims) <= g.pages * |victims|
  {
    hide Disciplined, Partition, Forward, Backward, Healthy, CopyVictims, Level, Rows, Live, HonestVictims, Full;
    ActiveLevel(g, f);
    CopyVictimsPaid(g, f, victims, 0);
    assert victims[0..] == victims;
    forall k | 0 <= k < |victims|
      ensures |f.pool[victims[k]].cells| == g.pages
    {
      UsedBlock(g, f, victims[k]);
    }
    RowsScanned(g, f.pool, victims);
    LiveBound(g, Rows(f.pool, victims));
    ScanIsProduct(g, |victims|);
  }

  /** Copying v victims takes at most v + pageCountToMaxPerf blocks from the free list. */
  lemma CopyTakesAtMost(g: Geometry, f: Ftl, victims: seq<nat>)
    requires Inv(g, f) && Healthy(f) && Victims(g, f, victims) && HonestVictims(g, f, victims, 0)
    requires CopyVictims(g, f, victims, 0).Ok?
    ensures |f.free| <= |CopyVictims(g, f, victims, 0).value.free| + |victims| + g.slots
  {
    hide Partition, Forward, Backward, Healthy, Victims, CopyVictims, HonestVictims, LivePages, Disciplined;
    CopyTakesLivePages(g, f, victims);
    var f1 := CopyVictims(g, f, victims, 0).value;
    Distribute(g.pages, |f1.free|, |victims|, g.slots);
    Cancel(g.pages, |f.free|, |f1.free| + |victims| + g.slots);
  }

  /** Progress: a collection leaves at least as many more free blocks as it returns victims, less the
      blocks that its live pages fill and one for each active slot. */
  lemma CollectGains(g: Geometry, f: Ftl, victims: seq<nat>)
    requires Inv(g, f) && Healthy(f) && Victims(g, f, victims) && HonestVictims(g, f, victims, 0)
    requires Collect(g, f, victims).Ok?
    ensures forall k :: 0 <= k < |victims| ==> victims[k] < |f.pool|
    ensures var f' := Collect(g, f, victims).value;
            |f.free| + Returning(g, f, victims, 0)
              <= |f'.free| + (LivePages(g, f, victims) + g.pages - 1) / g.pages + g.slots
  {
    hide Partition, Forward, Backward, Healthy, Victims;
    hide CopyVictims, EraseVictims, HonestVictims, LivePages, Disciplined;
    hide Returning, Moved, Clean, Erasable;
    CopyTakesLivePages(g, f, victims);
    CopyVictimsKeeps(g, f, victims, 0);
    var f1 := CopyVictims(g, f, victims, 0).value;
    MovedInvisible(g, f, f1, victims);
    EraseVictimsKeeps(g, f1, victims, 0);
    MovedWear(g, f, f1);
    ReturningSame(g, f, f1, victims, 0);
    CeilCovers(g.pages, |f.free|, |f1.free|, LivePages(g, f, victims), g.slots);
  }

  lemma MovedWear(g: Geometry, f: Ftl, f': Ftl)
    requires Moved(g, f, f')
    ensures |f'.pool| == |f.pool| && forall b :: 0 <= b < |f.pool| ==> f'.pool[b].wear == f.pool[b].wear
  {
  }

  lemma CeilCovers(a: nat, x: nat, y: nat, live: nat, slots: nat)
    requires 1 <= a && a * x <= a * y + live + a * slots
    ensures x <= y + (live + a - 1) / a + slots
  {
    DivMod(live + a - 1, a);
    var c := (live + a - 1) / a;
    assert live <= c * a;
    Distribute(a, y, c, slots);
    Cancel(a, x, y + c + slots);
  }

  lemma Grow(a: nat, x: nat, y: nat)
    requires x <= y
    ensures a * x <= a * y
  {
  }

  lemma EnoughIsAffordable(g: Geometry, f: Ftl, n: nat)
    requires Inv(g, f) && n + g.slots <= |f.free| + 1
    ensures Affordable(g, f, Scan(g, n))
  {
    ActiveLevel(g, f);
    ScanIsProduct(g, n);
    hide Partition, Forward, Backward, Disciplined, Level, Scan;
    Times(g.pages, |f.free|);
    Distribute(g.pages, n, g.slots, 0);
    Grow(g.pages, n + g.slots, |f.free| + 1);
  }

  lemma EraseSucceeds(g: Geometry, f: Ftl, f1: Ftl, victims: seq<nat>)
    requires Moved(g, f, f1) && Victims(g, f1, victims) && f1.free != []
    requires forall k :: 0 <= k < |victims| ==> Clean(g, f1, victims[k])
    ensures EraseVictims(g, f1, victims, 0).Ok?
  {
    MovedInvisible(g, f, f1, victims);
    EraseVictimsKeeps(g, f1, victims, 0);
  }

  /** With that many blocks free, copying cannot panic; with one more, the whole collection cannot. */
  lemma CollectSucceeds(g: Geometry, f: Ftl, victims: seq<nat>)
    requires Inv(g, f) && Healthy(f) && Victims(g, f, victims) && HonestVictims(g, f, victims, 0)
    ensures |victims| + g.slots <= |f.free| + 1 ==> CopyVictims(g, f, victims, 0).Ok?
    ensures |victims| + g.slots < |f.free| ==> Collect(g, f, victims).Ok?
  {
    hide Inv, Healthy, Victims, Moved, Clean, Affordable, Scan, CopyVictims, EraseVictims, HonestVictims;
    if |victims| + g.slots <= |f.free| + 1 {
      EnoughIsAffordable(g, f, |victims|);
      CopyVictimsAffordable(g, f, victims, 0);
    }
    if |victims| + g.slots < |f.free| {
      CopyTakesAtMost(g, f, victims);
      CopyVictimsKeeps(g, f, victims, 0);
      EraseSucceeds(g, f, CopyVictims(g, f, victims, 0).value, victims);
    }
  }
}
