/** Host writes and trims (writeInternal, trimInternal) against the host's view of the device. */
module FtlWrite {
  import opened Outcomes
  import opened FtlState
  import opened FtlSteps
  import opened FtlInvariant

  /** What a write means to the host: the flagged units of one LPN change, nothing else does. */
  function HostWrite(units: nat, h: Host, lpn: nat, flags: seq<bool>, data: seq<Data>): Host
    requires |flags| == |data| == units
  {
    h[lpn := seq(units, i requires 0 <= i < units && |flags| == |data| == units =>
               if flags[i] then Some(data[i])
               else if lpn in h then Sub(h[lpn], i) else None)]
  }

  /** The selected units of an LPN from one unit up to another. */
  ghost function Selected(g: Geometry, lpn: nat, flags: seq<bool>, lo: nat, hi: nat): set<(nat, nat)> {
    set u: nat | lo <= u < hi && g.Selects(flags, u) :: (lpn, u)
  }

  ghost predicate SameImages(pool: seq<Block>, pool': seq<Block>) {
    forall b, p, u :: At(pool', b, p, u).image == At(pool, b, p, u).image
  }

  lemma {:induction false} InvalidateFromOpensHoles(g: Geometry, f: Ftl, lpn: nat, flags: seq<bool>, u: nat)
    requires u <= g.Mapped() && lpn in f.table
    requires Consistent(g, f, Selected(g, lpn, flags, 0, u))
    ensures var r := InvalidateFrom(g, f, lpn, flags, u);
            && r.Ok?
            && r.value == f.(pool := r.value.pool)
            && SameWear(f.pool, r.value.pool) && SameImages(f.pool, r.value.pool)
            && Consistent(g, r.value, Selected(g, lpn, flags, 0, g.Mapped()))
    decreases g.Mapped() - u
  {
    if u < g.Mapped() {
      var holes := Selected(g, lpn, flags, 0, u);
      var holes' := Selected(g, lpn, flags, 0, u + 1);
      if !g.Selects(flags, u) {
        assert holes' == holes;
        InvalidateFromOpensHoles(g, f, lpn, flags, u + 1);
      } else {
        assert holes' == holes + {(lpn, u)};
        var e := f.table[lpn][u];
        if e == g.Unmapped() {
          UnmappedIsHole(g, f, lpn, u, holes);
          InvalidateFromOpensHoles(g, f, lpn, flags, u + 1);
        } else {
          InvalidateOpensHole(g, f, lpn, u, holes);
          InvalidateFromOpensHoles(g, InvalidateAt(f, e.block, e.page, u).value, lpn, flags, u + 1);
        }
      }
    }
  }

  /** Host unit i of the LPN is rewritten by programming units u and up. */
  predicate Rewrites(g: Geometry, flags: seq<bool>, i: nat, u: nat) {
    i < |flags| && flags[i] && (if g.tweak then u <= i else u == 0)
  }

  ghost predicate RoomFrom(g: Geometry, f: Ftl, d: nat, u: nat) {
    && d in f.used && d < |f.pool| && |f.pool[d].next| == g.units
    && forall i :: u <= i < g.units ==> f.pool[d].next[i] < g.pages
  }

  /** One selected unit of a write. */
  lemma ProgramOne(g: Geometry, f: Ftl, d: nat, lpn: nat, flags: seq<bool>, data: seq<Data>, u: nat)
    requires |flags| == |data| == g.units && lpn in f.table && g.Selects(flags, u)
    requires Consistent(g, f, Selected(g, lpn, flags, u, g.Mapped())) && RoomFrom(g, f, d, u)
    ensures var r := Program(f, d, lpn, u, Merged(g, f, lpn, u, flags, data));
            && r.Ok?
            && Consistent(g, r.value, Selected(g, lpn, flags, u + 1, g.Mapped())) && RoomFrom(g, r.value, d, u + 1)
            && r.value == f.(pool := r.value.pool, table := r.value.table)
            && r.value.table.Keys == f.table.Keys
            && forall l, i :: l in f.table && 0 <= i < g.units ==>
                 Seen(g, r.value, l, i) ==
                 if l == lpn && (g.tweak ==> i == u) && flags[i] then Some(data[i]) else Seen(g, f, l, i)
  {
    var holes := Selected(g, lpn, flags, u, g.Mapped());
    var image := Merged(g, f, lpn, u, flags, data);
    assert holes - {(lpn, u)} == Selected(g, lpn, flags, u + 1, g.Mapped());
    assert (lpn, u) in holes;
    ProgramFillsHole(g, f, d, lpn, u, image, holes);
    SeenAfterFill(g, f, Program(f, d, lpn, u, image).value, d, f.pool[d].next[u], lpn, u, image, holes);
    MergedKeepsUnflagged(g, f, lpn, u, flags, data);
  }

  lemma MergedKeepsUnflagged(g: Geometry, f: Ftl, lpn: nat, u: nat, flags: seq<bool>, data: seq<Data>)
    requires Consistent'(g, f) && |flags| == |data| == g.units && lpn in f.table && u < g.Mapped()
    requires |f.pool| == g.total && forall b :: 0 <= b < g.total ==> |f.pool[b].cells| == g.pages
    ensures forall i :: 0 <= i < g.units && (g.tweak ==> i == u) ==>
              Sub(Merged(g, f, lpn, u, flags, data), i) == if flags[i] then Some(data[i]) else Seen(g, f, lpn, i)
  {
  }

  lemma {:induction false} ProgramFromFillsHoles(g: Geometry, f: Ftl, d: nat, lpn: nat, flags: seq<bool>,
      data: seq<Data>, u: nat)
    requires |flags| == |data| == g.units && u <= g.Mapped() && lpn in f.table
    requires Consistent(g, f, Selected(g, lpn, flags, u, g.Mapped())) && RoomFrom(g, f, d, u)
    ensures var r := ProgramFrom(g, f, d, lpn, flags, data, u);
            && r.Ok?
            && Inv(g, r.value)
            && r.value == f.(pool := r.value.pool, table := r.value.table)
            && r.value.table.Keys == f.table.Keys
            && forall l, i :: l in f.table && 0 <= i < g.units ==>
                 Seen(g, r.value, l, i) ==
                 if l == lpn && Rewrites(g, flags, i, u) then Some(data[i]) else Seen(g, f, l, i)
    decreases g.Mapped() - u
  {
    hide Shape, Partition, Forward, Backward, Program, Merged, Seen;
    if u == g.Mapped() {
      assert Selected(g, lpn, flags, u, g.Mapped()) == {};
    } else if !g.Selects(flags, u) {
      assert Selected(g, lpn, flags, u, g.Mapped()) == Selected(g, lpn, flags, u + 1, g.Mapped());
      ProgramFromFillsHoles(g, f, d, lpn, flags, data, u + 1);
    } else {
      ProgramOne(g, f, d, lpn, flags, data, u);
      var f1 := Program(f, d, lpn, u, Merged(g, f, lpn, u, flags, data)).value;
      ProgramFromFillsHoles(g, f1, d, lpn, flags, data, u + 1);
    }
  }

  /** Whether the next write finds its active block missing, or full with nothing to replace it. */
  ghost predicate Stranded(g: Geometry, f: Ftl, ioMap: seq<bool>)
    requires Inv(g, f)
  {
    f.active[Rotate(g, f, ioMap).cursor] !in f.used
  }

  ghost predicate Exhausted(g: Geometry, f: Ftl, ioMap: seq<bool>)
    requires Inv(g, f)
  {
    Full(g, f.pool[f.active[Rotate(g, f, ioMap).cursor]]) && f.free == []
  }

  lemma EnterKeeps(g: Geometry, f: Ftl, lpn: nat, flags: seq<bool>)
    requires Inv(g, f) && lpn !in f.table
    ensures var f1 := Enter(g, f, lpn);
            && Consistent(g, f1, Selected(g, lpn, flags, 0, g.Mapped()))
            && forall l, i :: l in f1.table && 0 <= i < g.units ==>
                 Seen(g, f1, l, i) == if l == lpn then None else Seen(g, f, l, i)
  {
  }

  /** Clears the way for a write: the units to be written are holes and the host sees no difference. */
  lemma PrepareWrite(g: Geometry, f: Ftl, lpn: nat, flags: seq<bool>) returns (f1: Ftl)
    requires Inv(g, f)
    ensures Ok(f1) == if lpn in f.table then InvalidateFrom(g, f, lpn, flags, 0) else Ok(Enter(g, f, lpn))
    ensures Consistent(g, f1, Selected(g, lpn, flags, 0, g.Mapped()))
    ensures f1 == f.(pool := f1.pool, table := f1.table) && SameWear(f.pool, f1.pool)
    ensures f1.table.Keys == f.table.Keys + {lpn}
    ensures forall l, i :: l in f1.table && 0 <= i < g.units ==>
              Seen(g, f1, l, i) == if l in f.table then Seen(g, f, l, i) else None
  {
    if lpn in f.table {
      assert Selected(g, lpn, flags, 0, 0) == {};
      InvalidateFromOpensHoles(g, f, lpn, flags, 0);
      f1 := InvalidateFrom(g, f, lpn, flags, 0).value;
      SameImagesSameSeen(g, f, f1);
    } else {
      EnterKeeps(g, f, lpn, flags);
      f1 := Enter(g, f, lpn);
    }
  }

  lemma ViewOfHostWrite(g: Geometry, f: Ftl, f': Ftl, lpn: nat, flags: seq<bool>, data: seq<Data>)
    requires Consistent'(g, f) && Consistent'(g, f') && |flags| == |data| == g.units
    requires f'.table.Keys == f.table.Keys + {lpn}
    requires forall l, i :: l in f'.table && 0 <= i < g.units ==>
               Seen(g, f', l, i) ==
               if l == lpn && flags[i] then Some(data[i]) else if l in f.table then Seen(g, f, l, i) else None
    ensures View(g, f') == HostWrite(g.units, View(g, f), lpn, flags, data)
  {
    var h' := HostWrite(g.units, View(g, f), lpn, flags, data);
    assert View(g, f').Keys == h'.Keys;
    forall l | l in h'
      ensures View(g, f')[l] == h'[l]
    {
      assert forall i :: 0 <= i < g.units ==> View(g, f')[l][i] == Seen(g, f', l, i);
    }
  }

  /** Once its holes are open, a write acquires a block and fills them there. */
  lemma AcquireAndProgram(g: Geometry, f: Ftl, lpn: nat, flags: seq<bool>, data: seq<Data>)
    requires |flags| == |data| == g.units && lpn in f.table
    requires Consistent(g, f, Selected(g, lpn, flags, 0, g.Mapped())) && Acquire(g, f, flags).Ok?
    ensures var f2 := Acquire(g, f, flags).value;
            var r := ProgramFrom(g, f2, f2.active[f2.cursor], lpn, flags, data, 0);
            && r.Ok?
            && Inv(g, r.value)
            && r.value.table.Keys == f.table.Keys
            && (forall l, i :: l in f.table && 0 <= i < g.units ==>
                  Seen(g, r.value, l, i) == if l == lpn && flags[i] then Some(data[i]) else Seen(g, f, l, i))
            && (Healthy(f) ==> Healthy(r.value))
  {
    hide Partition, Backward, Disciplined, Acquire, ProgramFrom, Seen;
    AcquireKeeps(g, f, flags, Selected(g, lpn, flags, 0, g.Mapped()));
    var f2 := Acquire(g, f, flags).value;
    if Healthy(f) { AcquireStaysHealthy(g, f, flags, Selected(g, lpn, flags, 0, g.Mapped())); }
    SameImagesSameSeen(g, f, f2);
    ProgramFromFillsHoles(g, f2, f2.active[f2.cursor], lpn, flags, data, 0);
  }

  lemma AcquireOutcomeOf(g: Geometry, f: Ftl, f1: Ftl, flags: seq<bool>, holes: set<(nat, nat)>)
    requires Inv(g, f) && Consistent(g, f1, holes)
    requires f1 == f.(pool := f1.pool, table := f1.table) && SameWear(f.pool, f1.pool)
    ensures var r := Acquire(g, f1, flags);
            && (r == Panic(Corrupted) <==> Stranded(g, f, flags))
            && (r == Panic(NoFreeBlock) <==> !Stranded(g, f, flags) && Exhausted(g, f, flags))
            && (r.Panic? ==> r.why in {Corrupted, NoFreeBlock})
  {
    AcquireOutcome(g, f1, flags, holes);
  }

  lemma WriteOutcome(g: Geometry, f: Ftl, lpn: nat, flags: seq<bool>, data: seq<Data>)
    requires Inv(g, f) && |flags| == |data| == g.units
    ensures var r := Write(g, f, lpn, flags, data);
            && (r == Panic(Corrupted) <==> Stranded(g, f, flags))
            && (r == Panic(NoFreeBlock) <==> !Stranded(g, f, flags) && Exhausted(g, f, flags))
            && (r.Panic? ==> r.why in {Corrupted, NoFreeBlock})
  {
    var f1 := PrepareWrite(g, f, lpn, flags);
    AcquireOutcomeOf(g, f, f1, flags, Selected(g, lpn, flags, 0, g.Mapped()));
    if Acquire(g, f1, flags).Ok? {
      AcquireAndProgram(g, f1, lpn, flags, data);
    }
  }

  lemma WriteSeen(g: Geometry, f: Ftl, lpn: nat, flags: seq<bool>, data: seq<Data>)
    requires Inv(g, f) && |flags| == |data| == g.units && Write(g, f, lpn, flags, data).Ok?
    ensures var f' := Write(g, f, lpn, flags, data).value;
            && Inv(g, f')
            && f'.table.Keys == f.table.Keys + {lpn}
            && (forall l, i :: l in f'.table && 0 <= i < g.units ==>
                  Seen(g, f', l, i) ==
                  if l == lpn && flags[i] then Some(data[i]) else if l in f.table then Seen(g, f, l, i) else None)
            && (Healthy(f) ==> Healthy(f'))
  {
    var f1 := PrepareWrite(g, f, lpn, flags);
    AcquireAndProgram(g, f1, lpn, flags, data);
  }

  /** A write succeeds unless its active block is stranded or the device is out of free blocks; it then
      keeps the invariant and does to the host's view exactly what the host asked for. */
  lemma WriteIsHostWrite(g: Geometry, f: Ftl, lpn: nat, flags: seq<bool>, data: seq<Data>)
    requires Inv(g, f) && |flags| == |data| == g.units
    ensures var r := Write(g, f, lpn, flags, data);
            && (r == Panic(Corrupted) <==> Stranded(g, f, flags))
            && (r == Panic(NoFreeBlock) <==> !Stranded(g, f, flags) && Exhausted(g, f, flags))
            && (r.Panic? ==> r.why in {Corrupted, NoFreeBlock})
            && (r.Ok? ==> Inv(g, r.value) && View(g, r.value) == HostWrite(g.units, View(g, f), lpn, flags, data))
            && (r.Ok? && Healthy(f) ==> Healthy(r.value))
  {
    WriteOutcome(g, f, lpn, flags, data);
    if Write(g, f, lpn, flags, data).Ok? {
      WriteSeen(g, f, lpn, flags, data);
      ViewOfHostWrite(g, f, Write(g, f, lpn, flags, data).value, lpn, flags, data);
    }
  }

  // ----- trim --------------------------------------------------------------------------------------

  /** Some unit of the LPN was never written. */
  ghost predicate PartlyMapped(g: Geometry, f: Ftl, lpn: nat, u: nat) {
    lpn in f.table && exists i :: u <= i < |f.table[lpn]| && f.table[lpn][i] == g.Unmapped()
  }

  ghost function Units(lpn: nat, hi: nat): set<(nat, nat)> {
    set u: nat | 0 <= u < hi :: (lpn, u)
  }

  lemma {:induction false} TrimFromOpensHoles(g: Geometry, f: Ftl, lpn: nat, u: nat)
    requires u <= g.Mapped() && lpn in f.table && Consistent(g, f, Units(lpn, u))
    ensures var r := TrimFrom(g, f, lpn, u);
            && (r.Ok? <==> !PartlyMapped(g, f, lpn, u))
            && (r.Panic? ==> r.why == BlockNotInUse)
            && (r.Ok? ==>
                  && r.value == f.(pool := r.value.pool) && SameImages(f.pool, r.value.pool)
                  && Consistent(g, r.value, Units(lpn, g.Mapped())))
    decreases g.Mapped() - u
  {
    hide Backward, Disciplined;
    if u < g.Mapped() {
      var e := f.table[lpn][u];
      if e != g.Unmapped() {
        assert Units(lpn, u + 1) == Units(lpn, u) + {(lpn, u)};
        InvalidateOpensHole(g, f, lpn, u, Units(lpn, u));
        TrimFromOpensHoles(g, InvalidateAt(f, e.block, e.page, u).value, lpn, u + 1);
      }
    }
  }

  lemma ForgetHoles(g: Geometry, f: Ftl, lpn: nat)
    requires lpn in f.table && Consistent(g, f, Units(lpn, g.Mapped()))
    ensures Inv(g, f.(table := f.table - {lpn}))
  {
    var f' := f.(table := f.table - {lpn});
    forall b, p, u | At(f.pool, b, p, u).valid
      ensures At(f.pool, b, p, u).lpn != lpn
    {
      assert u < g.Mapped();
    }
    assert Backward(g, f', {});
    assert Forward(g, f', {});
  }

  /** A trim panics exactly when the LPN is only partly mapped; otherwise it removes that LPN from the
      host's view and nothing else. */
  lemma TrimIsHostTrim(g: Geometry, f: Ftl, lpn: nat)
    requires Inv(g, f)
    ensures var r := Trim(g, f, lpn);
            && (r.Panic? <==> PartlyMapped(g, f, lpn, 0))
            && (r.Panic? ==> r.why == BlockNotInUse)
            && (r.Ok? ==> Inv(g, r.value) && View(g, r.value) == View(g, f) - {lpn})
            && (r.Ok? && Healthy(f) ==> Healthy(r.value))
  {
    if lpn in f.table {
      assert Units(lpn, 0) == {};
      TrimFromOpensHoles(g, f, lpn, 0);
      var r := TrimFrom(g, f, lpn, 0);
      if r.Ok? {
        ForgetHoles(g, r.value, lpn);
        var f' := r.value.(table := r.value.table - {lpn});
        SameImagesSameSeen(g, f, r.value);
        TrimmedView(g, f, r.value, lpn);
      }
    } else {
      assert View(g, f) - {lpn} == View(g, f);
    }
  }

  lemma TrimmedView(g: Geometry, f: Ftl, f1: Ftl, lpn: nat)
    requires Consistent'(g, f) && Consistent'(g, f1) && SameSeen(g, f, f1)
    ensures View(g, f1.(table := f1.table - {lpn})) == View(g, f) - {lpn}
  {
    var f' := f1.(table := f1.table - {lpn});
    assert View(g, f').Keys == (View(g, f) - {lpn}).Keys;
    forall l | l in View(g, f')
      ensures View(g, f')[l] == View(g, f)[l]
    {
      assert forall i :: 0 <= i < g.units ==> Seen(g, f', l, i) == Seen(g, f1, l, i) == Seen(g, f, l, i);
    }
  }
}
