/** What each elementary step of the translation layer keeps. */
module FtlInvariant {
  import opened Outcomes
  import opened FtlState
  import opened FtlSteps

  // ----- frames ----------------------------------------------------------------------------------

  /** Nothing the host can read moved or changed. */
  ghost predicate SameSeen(g: Geometry, f: Ftl, f': Ftl)
    requires Consistent'(g, f) && Consistent'(g, f')
  {
    && f'.table.Keys == f.table.Keys
    && forall l, u :: l in f.table && 0 <= u < g.units ==> Seen(g, f', l, u) == Seen(g, f, l, u)
  }

  /** The part of consistency that `Seen` needs. */
  ghost predicate Consistent'(g: Geometry, f: Ftl) {
    g.Valid() && forall l :: l in f.table ==> |f.table[l]| == g.Mapped()
  }

  /** How a request for the units `flags` moves over the active slots. It goes to the next slot if it asks for a unit
      that was asked for at the current one before, and always without the random-I/O tweak; otherwise it stays, and
      its units join those asked for. */
  ghost predicate Turned(g: Geometry, cursor: nat, asked: seq<bool>, flags: seq<bool>, cursor': nat, asked': seq<bool>)
    requires 1 <= g.slots
  {
    if !g.tweak || exists u :: 0 <= u < |asked| && u < |flags| && asked[u] && flags[u] then
      cursor' == (cursor + 1) % g.slots && asked' == flags
    else
      && cursor' == cursor && |asked'| == |asked|
      && forall u :: 0 <= u < |asked| ==> (asked'[u] <==> asked[u] || (u < |flags| && flags[u]))
  }

  lemma RotateTurns(g: Geometry, f: Ftl, flags: seq<bool>)
    requires f.cursor < g.slots
    ensures var f1 := Rotate(g, f, flags); Turned(g, f.cursor, f.ioMap, flags, f1.cursor, f1.ioMap)
  {
  }

  lemma AcquireOutcome(g: Geometry, f: Ftl, ioMap: seq<bool>, holes: set<(nat, nat)>)
    requires Consistent(g, f, holes)
    ensures var c := Rotate(g, f, ioMap).cursor;
            var r := Acquire(g, f, ioMap);
            && c < g.slots && Turned(g, f.cursor, f.ioMap, ioMap, c, Rotate(g, f, ioMap).ioMap)
            && (f.active[c] !in f.used <==> r == Panic(Corrupted))
            && (f.active[c] in f.used && Full(g, f.pool[f.active[c]]) && f.free == [] <==> r == Panic(NoFreeBlock))
            && (r.Panic? ==> r.why in {Corrupted, NoFreeBlock})
  {
    RotateTurns(g, f, ioMap);
    hide Turned;
  }

  function Without<T>(s: seq<T>, i: nat): (r: seq<T>)
    requires i < |s|
    ensures |r| == |s| - 1
    ensures forall k :: 0 <= k < |r| ==> r[k] == s[if k < i then k else k + 1]
  {
    s[..i] + s[i + 1..]
  }

  lemma WithoutContains<T>(s: seq<T>, i: nat, x: T)
    requires i < |s| && x in s && x != s[i]
    ensures x in Without(s, i)
  {
    var k :| 0 <= k < |s| && s[k] == x;
    assert Without(s, i)[if k < i then k else k - 1] == x;
  }

  lemma UseFreeKeepsPartition(g: Geometry, f: Ftl, i: nat)
    requires |f.pool| == g.total && Partition(g, f) && i < |f.free|
    ensures Partition(g, f.(used := f.used + {f.free[i]}, free := Without(f.free, i)))
  {
    forall b | 0 <= b < g.total && b !in f.used + {f.free[i]} && b in f.free
      ensures b in Without(f.free, i)
    {
      WithoutContains(f.free, i, b);
    }
  }

  lemma TakeFreeKeeps(g: Geometry, f: Ftl, slot: nat)
    requires Shape(g, f) && Partition(g, f) && slot < g.slots && f.free != []
    ensures TakeFree(g, f, slot).Ok?
    ensures var f' := TakeFree(g, f, slot).value;
            var d := f'.active[slot];
            && Shape(g, f') && Partition(g, f')
            && d in f.free && Blank(f.pool[d])
            && f' == f.(used := f.used + {d}, free := f'.free, active := f.active[slot := d])
            && |f'.free| == |f.free| - 1
  {
    hide Disciplined, PickFree;
    var i := PickFree(g.slots, f.free, slot, 0);
    assert f.free[i] !in f.used;
    UseFreeKeepsPartition(g, f, i);
    assert f.free[..i] + f.free[i + 1..] == Without(f.free, i);
  }

  lemma {:induction false} PickFreeIsFirst(slots: nat, free: seq<nat>, slot: nat, from: nat)
    requires 1 <= slots && 0 < |free| && from <= |free|
    ensures var i := PickFree(slots, free, slot, from);
            if exists k :: from <= k < |free| && free[k] % slots == slot
            then from <= i && free[i] % slots == slot && forall j :: from <= j < i ==> free[j] % slots != slot
            else i == 0
    decreases |free| - from
  {
    if from < |free| && free[from] % slots != slot {
      PickFreeIsFirst(slots, free, slot, from + 1);
      if k :| from <= k < |free| && free[k] % slots == slot { assert from + 1 <= k; }
    }
  }

  /** The block taken for a slot is the first free one that is congruent to the slot, if there is one, and the first
      free one otherwise. */
  lemma TakenFitsSlot(g: Geometry, f: Ftl, slot: nat)
    requires 1 <= g.slots && TakeFree(g, f, slot).Ok?
    ensures var d := TakeFree(g, f, slot).value.active[slot];
            exists i :: && 0 <= i < |f.free| && f.free[i] == d
                        && (if exists k :: 0 <= k < |f.free| && f.free[k] % g.slots == slot
                            then d % g.slots == slot && forall j :: 0 <= j < i ==> f.free[j] % g.slots != slot
                            else i == 0)
  {
    hide PickFree;
    PickFreeIsFirst(g.slots, f.free, slot, 0);
    assert f.free[PickFree(g.slots, f.free, slot, 0)] == TakeFree(g, f, slot).value.active[slot];
  }

  /** Every unit of the block still has an erased page. */
  ghost predicate Roomy(g: Geometry, b: Block) {
    |b.next| == g.units && forall u :: 0 <= u < g.units ==> b.next[u] < g.pages
  }

  lemma RoomyIffNotFull(g: Geometry, b: Block)
    requires g.Valid() && Disciplined(g, b)
    ensures Roomy(g, b) <==> !Full(g, b)
  {
  }

  lemma AcquireKeeps(g: Geometry, f: Ftl, ioMap: seq<bool>, holes: set<(nat, nat)>)
    requires Consistent(g, f, holes) && Acquire(g, f, ioMap).Ok?
    ensures var f' := Acquire(g, f, ioMap).value;
            && Consistent(g, f', holes)
            && f'.pool == f.pool && f'.table == f.table
            && f.used <= f'.used
            && WheelOf(f') == Spin(g, WheelOf(f), ioMap)
            && Turned(g, f.cursor, f.ioMap, ioMap, f'.cursor, f'.ioMap)
            && f'.active[f'.cursor] in f'.used
            && Roomy(g, f'.pool[f'.active[f'.cursor]])
            && f'.active == f.active[f'.cursor := f'.active[f'.cursor]]
            && (f'.active == f.active || f'.active[f'.cursor] !in f.used)
  {
    RotateTurns(g, f, ioMap);
    hide Turned;
    var f1 := Rotate(g, f, ioMap);
    assert Shape(g, f1) && Partition(g, f1);
    RoomyIffNotFull(g, f1.pool[f1.active[f1.cursor]]);
    if Full(g, f1.pool[f1.active[f1.cursor]]) {
      TakeFreeKeeps(g, f1, f1.cursor);
    }
  }

  lemma AcquireStaysHealthy(g: Geometry, f: Ftl, ioMap: seq<bool>, holes: set<(nat, nat)>)
    requires Consistent(g, f, holes) && Acquire(g, f, ioMap).Ok? && Healthy(f)
    ensures Healthy(Acquire(g, f, ioMap).value)
  {
    AcquireKeeps(g, f, ioMap, holes);
  }

  // ----- one cell at a time ------------------------------------------------------------------------

  ghost predicate OnlyCell(pool: seq<Block>, pool': seq<Block>, b: nat, p: nat, u: nat, c: Cell) {
    forall b', p', u' {:trigger At(pool', b', p', u')} {:trigger At(pool, b', p', u')} ::
      At(pool', b', p', u') == if b' == b && p' == p && u' == u then c else At(pool, b', p', u')
  }

  lemma SetCellFrame(pool: seq<Block>, b: nat, p: nat, u: nat, c: Cell, next: seq<nat>)
    requires b < |pool| && p < |pool[b].cells| && u < |pool[b].cells[p]|
    ensures OnlyCell(pool, pool[b := SetCell(pool[b], p, u, c).(next := next)], b, p, u, c)
  {
  }

  /** Write pointers and erase counts are untouched. */
  ghost predicate SameWear(pool: seq<Block>, pool': seq<Block>) {
    && |pool'| == |pool|
    && forall b :: 0 <= b < |pool| ==> pool'[b].next == pool[b].next && pool'[b].wear == pool[b].wear
  }

  lemma InvalidatedStaysDisciplined(g: Geometry, b: Block, p: nat, u: nat)
    requires Disciplined(g, b) && p < g.pages && u < g.units
    ensures Disciplined(g, Invalidated(b, p, u))
  {
  }

  /** Invalidating the unit a table entry points at opens a hole for that entry. */
  lemma InvalidateOpensHole(g: Geometry, f: Ftl, l: nat, u: nat, holes: set<(nat, nat)>)
    requires Consistent(g, f, holes) && l in f.table && u < g.Mapped() && (l, u) !in holes
    requires f.table[l][u] != g.Unmapped()
    ensures var e := f.table[l][u];
            var r := InvalidateAt(f, e.block, e.page, u);
            && r.Ok?
            && r.value == f.(pool := r.value.pool)
            && OnlyCell(f.pool, r.value.pool, e.block, e.page, u, At(f.pool, e.block, e.page, u).(valid := false))
            && SameWear(f.pool, r.value.pool)
            && Consistent(g, r.value, holes + {(l, u)})
  {
    var e := f.table[l][u];
    var f' := InvalidateAt(f, e.block, e.page, u).value;
    var c := At(f.pool, e.block, e.page, u).(valid := false);
    InvalidatedStaysDisciplined(g, f.pool[e.block], e.page, u);
    SetCellFrame(f.pool, e.block, e.page, u, c, f.pool[e.block].next);
    assert f'.pool == f.pool[e.block := SetCell(f.pool[e.block], e.page, u, c).(next := f.pool[e.block].next)];
    ClearedBoth(g, f, f', e.block, e.page, l, u, holes);
  }

  lemma ClearedBoth(g: Geometry, f: Ftl, f': Ftl, b: nat, p: nat, l: nat, u: nat, holes: set<(nat, nat)>)
    requires Forward(g, f, holes) && Backward(g, f, holes) && f' == f.(pool := f'.pool)
    requires OnlyCell(f.pool, f'.pool, b, p, u, At(f.pool, b, p, u).(valid := false))
    requires At(f.pool, b, p, u).valid && At(f.pool, b, p, u).lpn == l
    ensures Forward(g, f', holes + {(l, u)}) && Backward(g, f', holes + {(l, u)})
  {
  }

  /** An unmapped entry can be treated as a hole. */
  lemma UnmappedIsHole(g: Geometry, f: Ftl, l: nat, u: nat, holes: set<(nat, nat)>)
    requires Consistent(g, f, holes) && l in f.table && u < g.Mapped()
    requires f.table[l][u] == g.Unmapped()
    ensures Consistent(g, f, holes + {(l, u)})
  {
  }

  lemma ProgrammedStaysDisciplined(g: Geometry, b: Block, u: nat, l: nat, image: Image)
    requires Disciplined(g, b) && u < g.units && b.next[u] < g.pages
    ensures var r := Programmed(b, b.next[u], l, u, image);
            && r.Ok? && Disciplined(g, r.value)
            && r.value == SetCell(b, b.next[u], u, Cell(true, false, l, image)).(next := b.next[u := b.next[u] + 1])
  {
  }

  /** State f' is f with one erased cell made valid for (l, u) and recorded in the table. */
  ghost predicate Filled(f: Ftl, f': Ftl, d: nat, p: nat, l: nat, u: nat, image: Image) {
    && l in f.table && u < |f.table[l]|
    && f' == f.(pool := f'.pool, table := f.table[l := f.table[l][u := Ppa(d, p)]])
    && At(f.pool, d, p, u).erased
    && OnlyCell(f.pool, f'.pool, d, p, u, Cell(true, false, l, image))
  }

  lemma FilledForward(g: Geometry, f: Ftl, f': Ftl, d: nat, p: nat, l: nat, u: nat, image: Image,
      holes: set<(nat, nat)>)
    requires Shape(g, f) && Forward(g, f, holes) && Filled(f, f', d, p, l, u, image) && d in f.used && d < g.total
    ensures Forward(g, f', holes - {(l, u)})
  {
    forall l', u' | l' in f'.table && 0 <= u' < |f'.table[l']| && (l', u') !in holes - {(l, u)} &&
                    f'.table[l'][u'] != g.Unmapped()
      ensures var e := f'.table[l'][u'];
              && e.block in f'.used
              && At(f'.pool, e.block, e.page, u').valid
              && At(f'.pool, e.block, e.page, u').lpn == l'
    {
      var e := f'.table[l'][u'];
      if (l', u') != (l, u) {
        assert f.table[l'][u'] == e;
        assert At(f.pool, e.block, e.page, u').valid;
        assert !At(f.pool, d, p, u).valid;
      }
    }
  }

  lemma FilledBackward(g: Geometry, f: Ftl, f': Ftl, d: nat, p: nat, l: nat, u: nat, image: Image,
      holes: set<(nat, nat)>)
    requires Shape(g, f) && Backward(g, f, holes) && Filled(f, f', d, p, l, u, image) && d in f.used
    requires |f.table[l]| == g.Mapped() && (l, u) in holes
    ensures Backward(g, f', holes - {(l, u)})
  {
    forall b, p', u' | At(f'.pool, b, p', u').valid
      ensures var l' := At(f'.pool, b, p', u').lpn;
              && b in f'.used && u' < g.Mapped() && l' in f'.table && |f'.table[l']| == g.Mapped()
              && f'.table[l'][u'] == Ppa(b, p')
              && (l', u') !in holes - {(l, u)}
    {
      if !(b == d && p' == p && u' == u) {
        assert At(f.pool, b, p', u').valid;
        assert At(f.pool, b, p', u').lpn != l || u' != u;
      }
    }
  }

  /** Programming fills a hole: it touches one erased unit, one write pointer and one table entry. */
  lemma ProgramFillsHole(g: Geometry, f: Ftl, d: nat, l: nat, u: nat, image: Image, holes: set<(nat, nat)>)
    requires Consistent(g, f, holes) && l in f.table && u < g.Mapped() && (l, u) in holes
    requires d in f.used && f.pool[d].next[u] < g.pages
    ensures var r := Program(f, d, l, u, image);
            var p := f.pool[d].next[u];
            && r.Ok?
            && Filled(f, r.value, d, p, l, u, image)
            && r.value.pool == f.pool[d := r.value.pool[d]]
            && r.value.pool[d].next == f.pool[d].next[u := p + 1]
            && r.value.pool[d].wear == f.pool[d].wear
            && Consistent(g, r.value, holes - {(l, u)})
  {
    var p := f.pool[d].next[u];
    var f' := Program(f, d, l, u, image).value;
    ProgrammedStaysDisciplined(g, f.pool[d], u, l, image);
    SetCellFrame(f.pool, d, p, u, Cell(true, false, l, image), f.pool[d].next[u := p + 1]);
    FilledForward(g, f, f', d, p, l, u, image, holes);
    FilledBackward(g, f, f', d, p, l, u, image, holes);
  }

  // ----- what the host sees ------------------------------------------------------------------------

  /** Changing cells without touching an image changes nothing for the host. */
  lemma SameImagesSameSeen(g: Geometry, f: Ftl, f': Ftl)
    requires Consistent'(g, f) && f'.table == f.table
    requires forall b, p, u :: At(f'.pool, b, p, u).image == At(f.pool, b, p, u).image
    ensures SameSeen(g, f, f')
  {
  }

  /** Filling the hole (l, u) shows the new image at that unit (at every unit of l without the tweak). */
  lemma SeenAfterFill(g: Geometry, f: Ftl, f': Ftl, d: nat, p: nat, l: nat, u: nat, image: Image,
      holes: set<(nat, nat)>)
    requires Consistent(g, f, holes) && Filled(f, f', d, p, l, u, image) && d in f.used && p < g.pages
    requires forall h :: h in holes && h.1 == u ==> h.0 == l
    ensures Consistent'(g, f') && f'.table.Keys == f.table.Keys
    ensures forall l', i :: l' in f.table && 0 <= i < g.units ==>
              Seen(g, f', l', i) == if l' == l && (g.tweak ==> i == u) then Sub(image, i) else Seen(g, f, l', i)
  {
    forall l', i | l' in f.table && 0 <= i < g.units
      ensures Seen(g, f', l', i) == if l' == l && (g.tweak ==> i == u) then Sub(image, i) else Seen(g, f, l', i)
    {
      var m := if g.tweak then i else 0;
      if l' != l || m != u {
        assert f'.table[l'][m] == f.table[l'][m];
        var e := f.table[l'][m];
        if m == u && e != g.Unmapped() {
          assert (l', m) !in holes;
          assert At(f.pool, e.block, e.page, m).valid;
        }
      } else {
        assert f'.table[l][u] == Ppa(d, p);
      }
    }
  }
}
