/** Garbage collection and the active blocks: which slots it visits, when it strands one, and how many
    free blocks it can take. */
module FtlSlots {
  import opened FtlState
  import opened FtlSteps
  import opened FtlInvariant
  import opened FtlCollect
  import opened FtlGarbage

  // ----- the slots a collection visits --------------------------------------------------------------

  function PageWheel(g: Geometry, w: Wheel, row: seq<Cell>): Wheel {
    if AnyBit(PageMap(g, row)) then Spin(g, w, MoveBits(g, row)) else w
  }

  function Turn(g: Geometry, w: Wheel, rows: seq<seq<Cell>>): Wheel
    decreases |rows|
  {
    if rows == [] then w else Turn(g, PageWheel(g, w, rows[0]), rows[1..])
  }

  /** The slots that copying these pages acquires a destination from. */
  function Visits(g: Geometry, w: Wheel, rows: seq<seq<Cell>>): set<nat>
    decreases |rows|
  {
    if rows == [] then {}
    else
      var w' := PageWheel(g, w, rows[0]);
      (if AnyBit(PageMap(g, rows[0])) then {w'.cursor} else {}) + Visits(g, w', rows[1..])
  }

  /** All pages of the victims, in the order they are scanned. */
  function Rows(pool: seq<Block>, victims: seq<nat>): seq<seq<Cell>>
    requires forall k :: 0 <= k < |victims| ==> victims[k] < |pool|
  {
    if victims == [] then [] else pool[victims[0]].cells + Rows(pool, victims[1..])
  }

  /** The pages among these that have to be copied. */
  function Live(g: Geometry, rows: seq<seq<Cell>>): nat
    decreases |rows|
  {
    if rows == [] then 0 else (if AnyBit(PageMap(g, rows[0])) then 1 else 0) + Live(g, rows[1..])
  }

  lemma {:induction false} LiveConcat(g: Geometry, a: seq<seq<Cell>>, b: seq<seq<Cell>>)
    ensures Live(g, a + b) == Live(g, a) + Live(g, b)
    decreases |a|
  {
    if a == [] {
      assert a + b == b;
    } else {
      assert (a + b)[1..] == a[1..] + b;
      LiveConcat(g, a[1..], b);
    }
  }

  lemma {:induction false} LiveBound(g: Geometry, rows: seq<seq<Cell>>)
    ensures Live(g, rows) <= |rows|
    decreases |rows|
  {
    if rows != [] { LiveBound(g, rows[1..]); }
  }

  lemma {:induction false} VisitsConcat(g: Geometry, w: Wheel, a: seq<seq<Cell>>, b: seq<seq<Cell>>)
    ensures Turn(g, w, a + b) == Turn(g, Turn(g, w, a), b)
    ensures Visits(g, w, a + b) == Visits(g, w, a) + Visits(g, Turn(g, w, a), b)
    decreases |a|
  {
    if a == [] {
      assert a + b == b;
    } else {
      assert (a + b)[1..] == a[1..] + b;
      VisitsConcat(g, PageWheel(g, w, a[0]), a[1..], b);
    }
  }

  /** The block was not a full in-use block before. */
  ghost predicate Newcomer(g: Geometry, f: Ftl, b: nat) {
    b < |f.pool| && !(b in f.used && Full(g, f.pool[b]))
  }

  /** Visited slots hold newcomers, the others hold what they held. */
  ghost predicate SlotsAfter(g: Geometry, f: Ftl, f': Ftl, visited: set<nat>) {
    && |f'.active| == |f.active|
    && forall s :: 0 <= s < |f.active| ==>
         if s in visited then Newcomer(g, f, f'.active[s]) else f'.active[s] == f.active[s]
  }

  lemma SlotsTrans(g: Geometry, f0: Ftl, f1: Ftl, f2: Ftl, a: set<nat>, b: set<nat>)
    requires SlotsAfter(g, f0, f1, a) && SlotsAfter(g, f1, f2, b) && FullStayFull(g, f0, f1)
    ensures SlotsAfter(g, f0, f2, a + b)
  {
    forall s | 0 <= s < |f0.active| && s in b
      ensures Newcomer(g, f0, f2.active[s])
    {
      assert Newcomer(g, f1, f2.active[s]);
    }
  }

  // ----- how many free blocks copying can take ------------------------------------------------------

  /** The pages already written in the blocks of these slots. */
  function Level(pool: seq<Block>, active: seq<nat>): nat
    requires forall s :: 0 <= s < |active| ==> active[s] < |pool|
  {
    if active == [] then 0 else Level(pool, active[1..]) + Fill(pool[active[0]].next)
  }

  lemma {:induction false} LevelSame(pool: seq<Block>, pool': seq<Block>, active: seq<nat>)
    requires |pool'| == |pool| && forall s :: 0 <= s < |active| ==> active[s] < |pool|
    requires forall s :: 0 <= s < |active| ==> pool'[active[s]].next == pool[active[s]].next
    ensures Level(pool', active) == Level(pool, active)
    decreases |active|
  {
    if active != [] { LevelSame(pool, pool', active[1..]); }
  }

  /** Replacing the block of one slot changes the level by the difference of the two fills. */
  lemma {:induction false} LevelReplace(pool: seq<Block>, active: seq<nat>, c: nat, d: nat)
    requires c < |active| && d < |pool| && forall s :: 0 <= s < |active| ==> active[s] < |pool|
    ensures Level(pool, active[c := d]) + Fill(pool[active[c]].next) == Level(pool, active) + Fill(pool[d].next)
    decreases |active|
  {
    if c == 0 {
      assert active[c := d][1..] == active[1..];
    } else {
      assert active[c := d][1..] == active[1..][c - 1 := d];
      LevelReplace(pool, active[1..], c - 1, d);
    }
  }

  /** Writing one page into the block of one slot raises the level by at most one. */
  lemma {:induction false} LevelRise(pool: seq<Block>, pool': seq<Block>, active: seq<nat>, c: nat)
    requires |pool'| == |pool| && c < |active| && Distinct(active)
    requires forall s :: 0 <= s < |active| ==> active[s] < |pool|
    requires forall b :: 0 <= b < |pool| && b != active[c] ==> pool'[b].next == pool[b].next
    requires Fill(pool'[active[c]].next) <= Fill(pool[active[c]].next) + 1
    ensures Level(pool', active) <= Level(pool, active) + 1
    decreases |active|
  {
    if c == 0 {
      LevelSame(pool, pool', active[1..]);
    } else {
      LevelRise(pool, pool', active[1..], c - 1);
    }
  }

  lemma Times(a: nat, n: nat)
    ensures a * (n + 1) == a * n + a
  {
  }

  lemma {:induction false} LevelBound(pool: seq<Block>, active: seq<nat>, pages: nat)
    requires forall s :: 0 <= s < |active| ==> active[s] < |pool| && Fill(pool[active[s]].next) <= pages
    ensures Level(pool, active) <= pages * |active|
    ensures forall s :: 0 <= s < |active| ==> Fill(pool[active[s]].next) <= Level(pool, active)
    decreases |active|
  {
    if active != [] {
      var rest := active[1..];
      LevelBound(pool, rest, pages);
      assert forall s :: 1 <= s < |active| ==> active[s] == rest[s - 1];
      Times(pages, |rest|);
    }
  }

  /** Copying n pages took `f.free - f'.free` blocks; each was paid for by pages written. */
  ghost predicate Paid(g: Geometry, f: Ftl, f': Ftl, n: nat) {
    && (forall s :: 0 <= s < |f.active| ==> f.active[s] < |f.pool|)
    && (forall s :: 0 <= s < |f'.active| ==> f'.active[s] < |f'.pool|)
    && |f'.free| <= |f.free|
    && Level(f'.pool, f'.active) + g.pages * |f.free| <= Level(f.pool, f.active) + n + g.pages * |f'.free|
  }

  lemma BlankFill(next: seq<nat>)
    requires forall u :: 0 <= u < |next| ==> next[u] == 0
    ensures Fill(next) == 0
  {
  }

  lemma FillRise(next: seq<nat>, next': seq<nat>)
    requires |next'| == |next| && forall u :: 0 <= u < |next| ==> next'[u] <= next[u] + 1
    ensures Fill(next') <= Fill(next) + 1
  {
  }

  /** Acquiring a destination visits one slot; a block is taken only to replace a full one. */
  lemma AcquireSlots(g: Geometry, f: Ftl, ioMap: seq<bool>)
    requires Inv(g, f) && Acquire(g, f, ioMap).Ok?
    ensures var f' := Acquire(g, f, ioMap).value;
            && SlotsAfter(g, f, f', {f'.cursor})
            && Paid(g, f, f', 0)
  {
    hide Disciplined, Partition, Forward, Backward, TakeFree;
    AcquireKeeps(g, f, ioMap, {});
    var f1 := Rotate(g, f, ioMap);
    var f' := Acquire(g, f, ioMap).value;
    var c := f1.cursor;
    RoomyIffNotFull(g, f.pool[f'.active[c]]);
    if Full(g, f.pool[f.active[c]]) {
      AcquireTakes(g, f, f1, c);
      BlankFill(f.pool[f'.active[c]].next);
      LevelReplace(f.pool, f.active, c, f'.active[c]);
      Times(g.pages, |f'.free|);
    }
  }

  lemma AcquireTakes(g: Geometry, f: Ftl, f1: Ftl, c: nat)
    requires Inv(g, f) && f1 == f.(cursor := c, ioMap := f1.ioMap) && c < g.slots && TakeFree(g, f1, c).Ok?
    ensures var f' := TakeFree(g, f1, c).value;
            && |f'.free| == |f.free| - 1 && f'.active[c] < g.total && Blank(f.pool[f'.active[c]])
  {
    TakeFreeKeeps(g, f1, c);
  }

  lemma PaidTrans(g: Geometry, f0: Ftl, f1: Ftl, f2: Ftl, m: nat, n: nat)
    requires Paid(g, f0, f1, m) && Paid(g, f1, f2, n)
    ensures Paid(g, f0, f2, m + n)
  {
  }

  lemma MoveRowSlots(g: Geometry, f: Ftl, v: nat, p: nat, c: nat)
    requires Inv(g, f) && v < g.total && c < g.slots && v != f.active[c] && p < g.pages && Honest(g, f.pool[v].cells[p])
    requires f.active[c] in f.used && Roomy(g, f.pool[f.active[c]]) && AnyBit(PageMap(g, f.pool[v].cells[p]))
    ensures var row := f.pool[v].cells[p];
            var r := MoveFrom(g, f, v, p, row, MoveBits(g, row), f.active[c], 0);
            && r.Ok?
            && r.value == f.(pool := r.value.pool, table := r.value.table)
            && OtherRows(g, f, r.value, v, p)
            && (Healthy(f) ==> Paid(g, f, r.value, 1))
  {
    hide Partition, Forward, Backward, SameSeen, MoveFrom, MoveBits, PageMap;
    var d := f.active[c];
    var row := f.pool[v].cells[p];
    RoomyIffNotFull(g, f.pool[d]);
    MoveRow(g, f, v, p, d);
    var f' := MoveFrom(g, f, v, p, row, MoveBits(g, row), d, 0).value;
    OnlyPageOtherRows(g, f, f', v, p, d);
    if Healthy(f) {
      FillRise(f.pool[d].next, f'.pool[d].next);
      LevelRise(f.pool, f'.pool, f.active, c);
    }
  }

  /** Copying one page of a victim: one slot is visited if the page is live, none otherwise. */
  lemma CopyPageSlots(g: Geometry, f: Ftl, v: nat, p: nat)
    requires Inv(g, f) && v in f.used && Full(g, f.pool[v]) && p < g.pages && Honest(g, f.pool[v].cells[p])
    requires CopyPage(g, f, v, p).Ok?
    ensures var f' := CopyPage(g, f, v, p).value;
            var row := f.pool[v].cells[p];
            && WheelOf(f') == PageWheel(g, WheelOf(f), row)
            && SlotsAfter(g, f, f', Visits(g, WheelOf(f), [row]))
            && OtherRows(g, f, f', v, p)
            && (Healthy(f) ==> Paid(g, f, f', Live(g, [row])))
  {
    hide Disciplined, Partition, Forward, Backward, SameSeen, Acquire;
    hide MoveFrom, MoveBits, PageMap, Full, Paid, Healthy, Honest;
    var row := f.pool[v].cells[p];
    assert [row][1..] == [];
    if AnyBit(PageMap(g, row)) {
      var bits := MoveBits(g, row);
      AcquireKeeps(g, f, bits, {});
      AcquireSlots(g, f, bits);
      var f1 := Acquire(g, f, bits).value;
      RoomyIffNotFull(g, f1.pool[f1.active[f1.cursor]]);
      MoveRowSlots(g, f1, v, p, f1.cursor);
      if Healthy(f) {
        AcquireStaysHealthy(g, f, bits, {});
        PaidTrans(g, f, f1, CopyPage(g, f, v, p).value, 0, 1);
      }
    } else {
      PaidRefl(g, f, 0);
    }
  }

  lemma PaidRefl(g: Geometry, f: Ftl, n: nat)
    requires Shape(g, f)
    ensures Paid(g, f, f, n)
  {
  }

  // ----- whole victims -------------------------------------------------------------------------------

  lemma RestOfRows(g: Geometry, f: Ftl, f1: Ftl, v: nat, p: nat)
    requires Shape(g, f) && OtherRows(g, f, f1, v, p) && v in f.used && v < g.total && Full(g, f.pool[v]) && p < g.pages
    ensures |f1.pool| == |f.pool| && |f1.pool[v].cells| == |f.pool[v].cells| == g.pages
    ensures f.pool[v].cells[p..] == [f.pool[v].cells[p]] + f1.pool[v].cells[p + 1..]
  {
  }

  lemma {:induction false} CopyBlockSlots(g: Geometry, f: Ftl, v: nat, p: nat)
    requires Inv(g, f) && v in f.used && Full(g, f.pool[v]) && p <= g.pages && HonestFrom(g, f.pool[v], p)
    requires CopyBlockFrom(g, f, v, p).Ok?
    ensures var f' := CopyBlockFrom(g, f, v, p).value;
            var rows := f.pool[v].cells[p..];
            && WheelOf(f') == Turn(g, WheelOf(f), rows)
            && SlotsAfter(g, f, f', Visits(g, WheelOf(f), rows))
            && OtherBlocks(g, f, f', v)
            && (Healthy(f) ==> Healthy(f') && Paid(g, f, f', Live(g, rows)))
    decreases g.pages - p
  {
    hide Inv, Moved, Shape, Full, SlotsAfter, OtherRows;
    hide Paid, Healthy, CopyPage, OtherBlocks, FullStayFull, Disciplined;
    hide Honest, HonestFrom, Visits, Turn;
    UsedBlock(g, f, v);
    if p < g.pages {
      HonestPage(g, f.pool[v], p);
      CopyPageKeeps(g, f, v, p);
      CopyPageSlots(g, f, v, p);
      var f1 := CopyPage(g, f, v, p).value;
      MovedVictim(g, f, f1, v);
      MovedParts(g, f, f1);
      RestOfRows(g, f, f1, v, p);
      HonestRest(g, f, f1, v, p);
      CopyBlockSlots(g, f1, v, p + 1);
      var f2 := CopyBlockFrom(g, f1, v, p + 1).value;
      VisitsConcat(g, WheelOf(f), [f.pool[v].cells[p]], f1.pool[v].cells[p + 1..]);
      LiveConcat(g, [f.pool[v].cells[p]], f1.pool[v].cells[p + 1..]);
      TurnOne(g, WheelOf(f), f.pool[v].cells[p]);
      SlotsTrans(g, f, f1, f2, Visits(g, WheelOf(f), [f.pool[v].cells[p]]),
                 Visits(g, WheelOf(f1), f1.pool[v].cells[p + 1..]));
      OtherRowsOthers(g, f, f1, f2, v, p);
      if Healthy(f) { PaidTrans(g, f, f1, f2, Live(g, [f.pool[v].cells[p]]), Live(g, f1.pool[v].cells[p + 1..])); }
    } else {
      assert f.pool[v].cells[p..] == [];
      NothingCopied(g, f, v);
      TurnNone(g, WheelOf(f));
    }
  }

  lemma TurnOne(g: Geometry, w: Wheel, row: seq<Cell>)
    ensures Turn(g, w, [row]) == PageWheel(g, w, row)
  {
    assert [row][1..] == [];
  }

  lemma TurnNone(g: Geometry, w: Wheel)
    ensures Turn(g, w, []) == w && Visits(g, w, []) == {}
  {
  }

  lemma NothingCopied(g: Geometry, f: Ftl, v: nat)
    requires Inv(g, f)
    ensures SlotsAfter(g, f, f, {}) && OtherBlocks(g, f, f, v) && Paid(g, f, f, 0)
  {
  }

  lemma {:induction false} RowsSame(pool: seq<Block>, pool': seq<Block>, victims: seq<nat>)
    requires |pool'| == |pool| && forall k :: 0 <= k < |victims| ==> victims[k] < |pool|
    requires forall k :: 0 <= k < |victims| ==> pool'[victims[k]].cells == pool[victims[k]].cells
    ensures Rows(pool', victims) == Rows(pool, victims)
    decreases |victims|
  {
    if victims != [] { RowsSame(pool, pool', victims[1..]); }
  }

  lemma RestOfVictims(g: Geometry, f: Ftl, f1: Ftl, victims: seq<nat>, i: nat)
    requires Victims(g, f, victims) && i < |victims| && OtherBlocks(g, f, f1, victims[i])
    ensures |f1.pool| == |f.pool|
    ensures Rows(f.pool, victims[i..]) == f.pool[victims[i]].cells + Rows(f1.pool, victims[i + 1..])
  {
    assert victims[i..][1..] == victims[i + 1..];
    RowsSame(f.pool, f1.pool, victims[i + 1..]);
  }

  lemma {:induction false} CopyVictimsSlots(g: Geometry, f: Ftl, victims: seq<nat>, i: nat)
    requires Inv(g, f) && Victims(g, f, victims) && i <= |victims| && HonestVictims(g, f, victims, i)
    requires CopyVictims(g, f, victims, i).Ok?
    ensures var f' := CopyVictims(g, f, victims, i).value;
            SlotsAfter(g, f, f', Visits(g, WheelOf(f), Rows(f.pool, victims[i..])))
    decreases |victims| - i
  {
    hide Inv, Moved, Full, SlotsAfter, Paid, Healthy, CopyBlockFrom, OtherBlocks, FullStayFull, Victims, Rows, Visits;
    hide HonestVictims, HonestFrom, Turn, Live, Drained;
    VictimsInPool(g, f, victims);
    if i < |victims| {
      var v := victims[i];
      VictimIs(g, f, victims, i);
      HonestVictim(g, f, victims, i);
      CopyBlockKeeps(g, f, v, 0);
      CopyBlockSlots(g, f, v, 0);
      var f1 := CopyBlockFrom(g, f, v, 0).value;
      MovedVictims(g, f, f1, victims);
      MovedParts(g, f, f1);
      RestOfVictims(g, f, f1, victims, i);
      HonestOthers(g, f, f1, victims, i);
      CopyVictimsSlots(g, f1, victims, i + 1);
      var rest := Rows(f1.pool, victims[i + 1..]);
      VisitsConcat(g, WheelOf(f), f.pool[v].cells, rest);
      SlotsTrans(g, f, f1, CopyVictims(g, f1, victims, i + 1).value,
                 Visits(g, WheelOf(f), f.pool[v].cells), Visits(g, WheelOf(f1), rest));
    } else {
      NothingCopied(g, f, 0);
      NoRows(g, f.pool, victims[i..], WheelOf(f));
    }
  }

  lemma VictimsInPool(g: Geometry, f: Ftl, victims: seq<nat>)
    requires Victims(g, f, victims)
    ensures forall k :: 0 <= k < |victims| ==> victims[k] < |f.pool|
  {
  }

  lemma NoRows(g: Geometry, pool: seq<Block>, victims: seq<nat>, w: Wheel)
    requires victims == []
    ensures Rows(pool, victims) == [] && Visits(g, w, Rows(pool, victims)) == {} && Live(g, Rows(pool, victims)) == 0
  {
  }

  lemma VictimIs(g: Geometry, f: Ftl, victims: seq<nat>, i: nat)
    requires Inv(g, f) && Victims(g, f, victims) && i < |victims|
    ensures victims[i] in f.used && victims[i] < |f.pool| && Full(g, f.pool[victims[i]])
    ensures f.pool[victims[i]].cells[0..] == f.pool[victims[i]].cells
  {
  }

  lemma {:induction false} CopyVictimsPaid(g: Geometry, f: Ftl, victims: seq<nat>, i: nat)
    requires Inv(g, f) && Healthy(f) && Victims(g, f, victims) && HonestVictims(g, f, victims, i)
    requires i <= |victims| && CopyVictims(g, f, victims, i).Ok?
    ensures forall k :: 0 <= k < |victims| ==> victims[k] < |f.pool|
    ensures var f' := CopyVictims(g, f, victims, i).value;
            Healthy(f') && Paid(g, f, f', Live(g, Rows(f.pool, victims[i..])))
    decreases |victims| - i
  {
    hide Inv, Moved, Full, Paid, Healthy, CopyBlockFrom, FullStayFull, Victims, Visits, SlotsAfter, OtherBlocks, Turn;
    hide Rows, HonestVictims, HonestFrom, Live, Drained;
    VictimsInPool(g, f, victims);
    if i < |victims| {
      var v := victims[i];
      VictimIs(g, f, victims, i);
      HonestVictim(g, f, victims, i);
      CopyBlockKeeps(g, f, v, 0);
      CopyBlockSlots(g, f, v, 0);
      var f1 := CopyBlockFrom(g, f, v, 0).value;
      MovedVictims(g, f, f1, victims);
      RestOfVictims(g, f, f1, victims, i);
      HonestOthers(g, f, f1, victims, i);
      CopyVictimsPaid(g, f1, victims, i + 1);
      var rest := Rows(f1.pool, victims[i + 1..]);
      LiveConcat(g, f.pool[v].cells, rest);
      PaidTrans(g, f, f1, CopyVictims(g, f1, victims, i + 1).value, Live(g, f.pool[v].cells), Live(g, rest));
    } else {
      NothingCopied(g, f, 0);
      NoRows(g, f.pool, victims[i..], WheelOf(f));
    }
  }

  /** The slots a collection of these victims acquires destinations from, computed before it runs. */
  ghost function Visited(g: Geometry, f: Ftl, victims: seq<nat>): set<nat>
    requires forall k :: 0 <= k < |victims| ==> victims[k] < |f.pool|
  {
    Visits(g, WheelOf(f), Rows(f.pool, victims))
  }

  /** A collection keeps every active slot on an in-use block of its own exactly when each slot that
      holds a victim is visited while the victims are copied. */
  lemma HealthAfterCollect(g: Geometry, f: Ftl, victims: seq<nat>)
    requires Inv(g, f) && Healthy(f) && Victims(g, f, victims) && HonestVictims(g, f, victims, 0)
    requires Collect(g, f, victims).Ok?
    ensures Healthy(Collect(g, f, victims).value) <==>
            forall s :: 0 <= s < g.slots && f.active[s] in victims ==> s in Visited(g, f, victims)
  {
    assert victims[0..] == victims;
    var f1 := CopyVictims(g, f, victims, 0).value;
    var f2 := EraseVictims(g, f1, victims, 0).value;
    CopyVictimsKeeps(g, f, victims, 0);
    CopyVictimsSlots(g, f, victims, 0);
    MovedInvisible(g, f, f1, victims);
    EraseVictimsKeeps(g, f1, victims, 0);
    hide Moved, Partition, Forward, Backward, Disciplined, SameSeen, CopyVictims, EraseVictims, Visits, Rows;
    var visited := Visited(g, f, victims);
    forall s | 0 <= s < g.slots
      ensures f2.active[s] !in f2.used <==> f.active[s] in victims && s !in visited
    {
      if s in visited {
        assert Newcomer(g, f, f1.active[s]);
      }
      if f1.active[s] in victims {
        var k :| 0 <= k < |victims| && victims[k] == f1.active[s];
        assert f1.active[s] in From(victims, 0);
      }
    }
  }
}
