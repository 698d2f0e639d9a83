/** Where a write goes, which units it leaves alone, and when it starts a collection of how many blocks. */
module FtlPlacement {
  import opened Outcomes
  import opened FtlState
  import opened FtlSteps
  import opened FtlInvariant
  import opened FtlWrite
  import opened FtlCollect
  import opened FtlRun

  /** With the random-I/O tweak every unit is mapped on its own, without it unit 0 stands for the whole page. */
  lemma UnitsInUse(g: Geometry, f: Ftl, l: nat, b: int, p: int, u: int)
    requires Inv(g, f)
    ensures l in f.table ==> |f.table[l]| == if g.tweak then g.units else 1
    ensures At(f.pool, b, p, u).valid ==> 0 <= u < g.units && (g.tweak || u == 0)
  {
  }

  /** The units a write with these flags is about. */
  predicate Touches(g: Geometry, flags: seq<bool>, u: nat) {
    if g.tweak then u < |flags| && flags[u] else u == 0
  }

  /** The entry of unit u of an LPN, unmapped if there is none. */
  function EntryOf(g: Geometry, f: Ftl, l: nat, u: nat): Ppa {
    if l in f.table && u < |f.table[l]| then f.table[l][u] else g.Unmapped()
  }

  lemma {:induction false} InvalidateKeepsPlace(g: Geometry, f: Ftl, lpn: nat, flags: seq<bool>, u: nat)
    requires InvalidateFrom(g, f, lpn, flags, u).Ok?
    ensures var f' := InvalidateFrom(g, f, lpn, flags, u).value;
            && f'.table == f.table && f'.free == f.free && f'.used == f.used && |f'.pool| == |f.pool|
            && forall b :: 0 <= b < |f.pool| ==> f'.pool[b].next == f.pool[b].next
    decreases g.Mapped() - u
  {
    if u < g.Mapped() {
      if !g.Selects(flags, u) || !InRange(g, f.table[lpn][u]) {
        InvalidateKeepsPlace(g, f, lpn, flags, u + 1);
      } else {
        var e := f.table[lpn][u];
        InvalidateKeepsPlace(g, InvalidateAt(f, e.block, e.page, u).value, lpn, flags, u + 1);
      }
    }
  }

  /** Units from u on of block d are programmed at their write pointers, and the table follows. */
  ghost predicate Placed(g: Geometry, f: Ftl, f': Ftl, lpn: nat, flags: seq<bool>, d: nat, u: nat)
    requires d < |f.pool| && |f'.pool| == |f.pool|
  {
    && f'.active == f.active && f'.cursor == f.cursor
    && (forall l :: l in f'.table <==> l in f.table)
    && (forall l :: l in f.table ==> |f'.table[l]| == |f.table[l]|)
    && (forall l :: l in f.table && l != lpn ==> f'.table[l] == f.table[l])
    && (lpn in f.table ==>
          forall i :: 0 <= i < |f.table[lpn]| && (i < u || !Touches(g, flags, i)) ==>
            f'.table[lpn][i] == f.table[lpn][i])
    && (forall i :: u <= i < g.Mapped() && Touches(g, flags, i) ==>
          && lpn in f.table && i < |f.table[lpn]| && i < |f.pool[d].next|
          && f'.table[lpn][i] == Ppa(d, f.pool[d].next[i]))
    && (forall b :: 0 <= b < |f.pool| && b != d ==> f'.pool[b].next == f.pool[b].next)
    && |f'.pool[d].next| == |f.pool[d].next|
    && forall i :: 0 <= i < |f.pool[d].next| ==>
         f'.pool[d].next[i] == f.pool[d].next[i] +
           if u <= i < g.Mapped() && Touches(g, flags, i) then 1 else 0
  }

  lemma ProgramPlaces(g: Geometry, f: Ftl, d: nat, lpn: nat, u: nat, image: Image)
    requires Program(f, d, lpn, u, image).Ok?
    ensures d < |f.pool| && u < |f.pool[d].next| && lpn in f.table && u < |f.table[lpn]|
    ensures var f' := Program(f, d, lpn, u, image).value;
            && f'.active == f.active && f'.cursor == f.cursor
            && f'.table == f.table[lpn := f.table[lpn][u := Ppa(d, f.pool[d].next[u])]]
            && |f'.pool| == |f.pool| && f'.pool[d].next == f.pool[d].next[u := f.pool[d].next[u] + 1]
            && forall b :: 0 <= b < |f.pool| && b != d ==> f'.pool[b] == f.pool[b]
  {
  }

  lemma PlacedSkip(g: Geometry, f: Ftl, f': Ftl, lpn: nat, flags: seq<bool>, d: nat, u: nat)
    requires d < |f.pool| && |f'.pool| == |f.pool| && Placed(g, f, f', lpn, flags, d, u + 1)
    requires !Touches(g, flags, u)
    ensures Placed(g, f, f', lpn, flags, d, u)
  {
  }

  lemma {:induction false} ProgramFromPlaces(
      g: Geometry, f: Ftl, d: nat, lpn: nat, flags: seq<bool>, data: seq<Data>, u: nat)
    requires |flags| == |data| == g.units && d < |f.pool| && ProgramFrom(g, f, d, lpn, flags, data, u).Ok?
    ensures var f' := ProgramFrom(g, f, d, lpn, flags, data, u).value;
            |f'.pool| == |f.pool| && Placed(g, f, f', lpn, flags, d, u)
    decreases g.Mapped() - u
  {
    hide Merged, Program;
    if u < g.Mapped() {
      if !g.Selects(flags, u) {
        ProgramFromPlaces(g, f, d, lpn, flags, data, u + 1);
        PlacedSkip(g, f, ProgramFrom(g, f, d, lpn, flags, data, u + 1).value, lpn, flags, d, u);
      } else {
        var image := Merged(g, f, lpn, u, flags, data);
        ProgramPlaces(g, f, d, lpn, u, image);
        var f1 := Program(f, d, lpn, u, image).value;
        ProgramFromPlaces(g, f1, d, lpn, flags, data, u + 1);
      }
    }
  }

  /** A write puts its units into the block of the slot it moved to, each at the write pointer that unit had, and
      points the table there. No other unit of this LPN, no other LPN and no other write pointer changes. */
  lemma WritePlaces(g: Geometry, f: Ftl, lpn: nat, flags: seq<bool>, data: seq<Data>)
    requires Inv(g, f) && |flags| == |data| == g.units && Write(g, f, lpn, flags, data).Ok?
    ensures var f' := Write(g, f, lpn, flags, data).value;
            && |f'.pool| == g.total && f'.cursor < |f'.active|
            && var d := f'.active[f'.cursor];
            && d < g.total && |f.pool[d].next| == |f'.pool[d].next| == g.units
            && (forall l, i :: 0 <= i < g.units ==>
                  EntryOf(g, f', l, i) ==
                  if l == lpn && Touches(g, flags, i) then Ppa(d, f.pool[d].next[i]) else EntryOf(g, f, l, i))
            && (forall b, i :: 0 <= b < g.total && 0 <= i < g.units ==>
                  |f.pool[b].next| == |f'.pool[b].next| == g.units &&
                  f'.pool[b].next[i] == f.pool[b].next[i] + if b == d && Touches(g, flags, i) then 1 else 0)
  {
    hide InvalidateFrom, ProgramFrom, Acquire, Forward, Backward, Partition;
    var f1 := if lpn in f.table then InvalidateFrom(g, f, lpn, flags, 0).value else Enter(g, f, lpn);
    if lpn in f.table { InvalidateKeepsPlace(g, f, lpn, flags, 0); }
    assert forall i :: 0 <= i < |f.free| ==> f.free[i] < g.total by { FreeInPool(g, f); }
    AcquireKeepsPool(g, f1, flags);
    var f2 := Acquire(g, f1, flags).value;
    var d := f2.active[f2.cursor];
    ProgramFromPlaces(g, f2, d, lpn, flags, data, 0);
    var f3 := ProgramFrom(g, f2, d, lpn, flags, data, 0).value;
    assert forall b :: 0 <= b < g.total ==> Disciplined(g, f.pool[b]);
    TableLengths(g, f);
    EntriesFollow(g, f, f2, f3, lpn, flags, d);
    PointersFollow(g, f, f2, f3, lpn, flags, d);
  }

  lemma FreeInPool(g: Geometry, f: Ftl)
    requires Inv(g, f)
    ensures forall i :: 0 <= i < |f.free| ==> f.free[i] < g.total
  {
  }

  lemma EntriesFollow(g: Geometry, f: Ftl, f2: Ftl, f3: Ftl, lpn: nat, flags: seq<bool>, d: nat)
    requires |f2.pool| == |f3.pool| && d < |f2.pool| && Placed(g, f2, f3, lpn, flags, d, 0) && 1 <= g.units
    requires |flags| == g.units && (forall l :: l in f.table ==> |f.table[l]| == g.Mapped())
    requires f2.table == if lpn in f.table then f.table else Enter(g, f, lpn).table
    ensures forall l, i :: 0 <= i < g.units ==>
              EntryOf(g, f3, l, i) ==
              if l == lpn && Touches(g, flags, i) then
                (if i < |f2.pool[d].next| then Ppa(d, f2.pool[d].next[i]) else g.Unmapped())
              else EntryOf(g, f, l, i)
  {
    forall l, i | 0 <= i < g.units
      ensures EntryOf(g, f3, l, i) ==
              if l == lpn && Touches(g, flags, i) then
                (if i < |f2.pool[d].next| then Ppa(d, f2.pool[d].next[i]) else g.Unmapped())
              else EntryOf(g, f, l, i)
    {
      assert Touches(g, flags, i) ==> i < g.Mapped();
    }
  }

  lemma PointersFollow(g: Geometry, f: Ftl, f2: Ftl, f3: Ftl, lpn: nat, flags: seq<bool>, d: nat)
    requires |f.pool| == |f2.pool| == |f3.pool| == g.total && d < g.total && Placed(g, f2, f3, lpn, flags, d, 0)
    requires |flags| == g.units && 1 <= g.units
    requires forall b :: 0 <= b < g.total ==> f2.pool[b].next == f.pool[b].next && |f.pool[b].next| == g.units
    ensures forall b, i :: 0 <= b < g.total && 0 <= i < g.units ==>
              |f3.pool[b].next| == g.units &&
              f3.pool[b].next[i] == f.pool[b].next[i] + if b == d && Touches(g, flags, i) then 1 else 0
  {
    assert forall i :: 0 <= i < g.units && Touches(g, flags, i) ==> i < g.Mapped();
  }

  lemma TableLengths(g: Geometry, f: Ftl)
    requires Inv(g, f)
    ensures forall l :: l in f.table ==> |f.table[l]| == g.Mapped()
  {
  }

  lemma AcquireKeepsPool(g: Geometry, f: Ftl, flags: seq<bool>)
    requires Acquire(g, f, flags).Ok? && forall i :: 0 <= i < |f.free| ==> f.free[i] < |f.pool|
    ensures var f' := Acquire(g, f, flags).value;
            f'.pool == f.pool && f'.table == f.table && f'.cursor < |f'.active| && f'.active[f'.cursor] < |f.pool|
  {
  }

  // ----- the start of a collection ---------------------------------------------------------------------------------

  /** A write starts a collection exactly if it leaves fewer free blocks than the threshold's share of all blocks. */
  lemma CollectsIff(g: Geometry, k: Policy, f: Ftl, op: Op)
    requires 1 <= g.total && op.WriteOp? && op.Shaped(g) && AnyBit(op.flags)
    requires Write(g, f, op.lpn, op.flags, op.data).Ok?
    ensures var f1 := Write(g, f, op.lpn, op.flags, op.data).value;
            Step(g, k, f, op) ==
            if |f1.free| as real < k.threshold * g.total as real
            then Collect(g, f1.(reclaimMore := false), op.victims) else Ok(f1)
  {
    hide Write, Collect;
    RatioBelow(|Write(g, f, op.lpn, op.flags, op.data).value.free|, g.total, k.threshold);
  }

  lemma RatioBelow(n: nat, total: nat, x: real)
    requires 0 < total
    ensures n as real / total as real < x <==> (n as real) < x * total as real
  {
    var a, b := n as real, total as real;
    var q := a / b;
    assert q * b == a;
    if q < x { assert (x - q) * b > 0.0; }
    if !(q < x) { assert (q - x) * b >= 0.0; }
  }

  /** How many blocks a collection is asked for: a fixed number, or as many as bring the free blocks up to the ratio;
      and one more for each slot if an active block was replaced since the last collection. */
  lemma ReclaimsFor(g: Geometry, f: Ftl, k: Policy)
    ensures var n := ReclaimCount(g, f, k) - if f.reclaimMore then g.slots else 0;
            var all := g.total as real;
            match k.goal
            case Fixed(m) => n == m
            case UpTo(ratio) =>
              if |f.free| as real <= all * ratio
              then (|f.free| + n) as real <= all * ratio < (|f.free| + n + 1) as real
              else n == 0
  {
  }
}
