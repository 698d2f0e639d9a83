/** Whole runs of the translation layer: a fresh device and any sequence of host writes and trims, with
    garbage collection wherever the source starts one. */
module FtlRun {
  import opened Outcomes
  import opened FtlState
  import opened FtlSteps
  import opened FtlInvariant
  import opened FtlWrite
  import opened FtlCollect
  import opened FtlGarbage

  // ----- a fresh device ------------------------------------------------------------------------------

  function BlankBlock(g: Geometry): Block {
    Block(seq(g.pages, _ => seq(g.units, _ => Cell(false, true, 0, []))), seq(g.units, _ => 0), 0)
  }

  /** All blocks are free, in index order, before the constructor fills the active slots. */
  function Unopened(g: Geometry): Ftl {
    Ftl(seq(g.total, _ => BlankBlock(g)), {}, seq(g.total, i => i), map[],
        seq(g.slots, _ => 0), 0, seq(g.units, _ => false), false)
  }

  function OpenSlots(g: Geometry, f: Ftl, s: nat): Result
    decreases g.slots - s
  {
    if s >= g.slots then Ok(f)
    else
      var f1 :- TakeFree(g, f, s);
      OpenSlots(g, f1, s + 1)
  }

  /** The state the PageMapping constructor leaves. */
  function Fresh(g: Geometry): Result {
    OpenSlots(g, Unopened(g), 0)
  }

  /** The first s slots name distinct in-use blocks. */
  ghost predicate Opened(f: Ftl, s: nat) {
    && s <= |f.active|
    && (forall i :: 0 <= i < s ==> f.active[i] in f.used)
    && (forall i, j :: 0 <= i < j < s ==> f.active[i] != f.active[j])
  }

  lemma {:induction false} OpenSlotsKeeps(g: Geometry, f: Ftl, s: nat)
    requires Inv(g, f) && s <= g.slots && Opened(f, s) && g.slots - s <= |f.free| && f.table == map[]
    ensures var r := OpenSlots(g, f, s);
            r.Ok? && Inv(g, r.value) && Healthy(r.value) && r.value.table == map[]
    decreases g.slots - s
  {
    hide Disciplined;
    if s < g.slots {
      TakeFreeKeeps(g, f, s);
      OpenSlotsKeeps(g, TakeFree(g, f, s).value, s + 1);
    }
  }

  /** A fresh device satisfies the invariant, has healthy active slots and shows the host nothing. */
  lemma FreshDevice(g: Geometry)
    requires g.Valid()
    ensures Fresh(g).Ok?
    ensures var f := Fresh(g).value;
            Inv(g, f) && Healthy(f) && View(g, f) == map[]
  {
    var f := Unopened(g);
    assert forall b :: 0 <= b < g.total ==> b in f.free by {
      forall b | 0 <= b < g.total ensures b in f.free { assert f.free[b] == b; }
    }
    assert Inv(g, f);
    OpenSlotsKeeps(g, f, 0);
  }

  // ----- when and what to collect --------------------------------------------------------------------

  /** freeBlockRatio() < gcThreshold */
  predicate LowOnBlocks(g: Geometry, f: Ftl, threshold: real)
    requires 1 <= g.total
  {
    |f.free| as real / g.total as real < threshold
  }

  function RowCount(row: seq<Cell>): nat {
    if row == [] then 0 else RowCount(row[..|row| - 1]) + if row[|row| - 1].valid then 1 else 0
  }

  function CellCount(cells: seq<seq<Cell>>): nat {
    if cells == [] then 0 else CellCount(cells[..|cells| - 1]) + RowCount(cells[|cells| - 1])
  }

  /** Block::getValidPageCountRaw */
  function RawCount(b: Block): nat {
    CellCount(b.cells)
  }

  ghost function FullBlocks(g: Geometry, f: Ftl): set<nat> {
    set b | b in f.used && b < |f.pool| && Full(g, f.pool[b])
  }

  /** selectVictimBlock with the greedy policy may return this list: as many full blocks as asked for
      (or all there are), none with more valid units than a full block left out. */
  ghost predicate GreedyChoice(g: Geometry, f: Ftl, count: nat, victims: seq<nat>) {
    && Victims(g, f, victims)
    && (|victims| == count || forall b :: b in FullBlocks(g, f) ==> b in victims)
    && |victims| <= count
    && forall v, b :: v in victims && b in FullBlocks(g, f) && b !in victims ==>
        RawCount(f.pool[v]) <= RawCount(f.pool[b])
  }

  /** How many blocks to reclaim: a fixed number (mode 0), or up to a ratio of free blocks (mode 1). */
  datatype Goal = Fixed(blocks: nat) | UpTo(ratio: real)

  /** GC parameters: the threshold ratio and the goal. */
  datatype Policy = Policy(threshold: real, goal: Goal)

  /** The goal in blocks when `free` are free; nothing if the ratio is already met. */
  function GoalCount(total: nat, free: nat, goal: Goal): nat {
    match goal
    case Fixed(n) => n
    case UpTo(ratio) =>
      var missing := total as real * ratio - free as real;
      if missing < 0.0 then 0 else missing.Floor
  }

  function ReclaimCount(g: Geometry, f: Ftl, k: Policy): nat {
    GoalCount(g.total, |f.free|, k.goal) + if f.reclaimMore then g.slots else 0
  }

  // ----- host operations -------------------------------------------------------------------------------

  /** `victims` is the list selectVictimBlock returns if this write starts a collection. */
  datatype Op =
    | WriteOp(lpn: nat, flags: seq<bool>, data: seq<Data>, victims: seq<nat>)
    | TrimOp(lpn: nat)
  {
    predicate Shaped(g: Geometry) {
      WriteOp? ==> |flags| == |data| == g.units
    }
  }

  /** PageMapping::write and PageMapping::trim. */
  function Step(g: Geometry, k: Policy, f: Ftl, op: Op): Result
    requires 1 <= g.total && op.Shaped(g)
  {
    match op
    case WriteOp(lpn, flags, data, victims) =>
      if !AnyBit(flags) then Ok(f)
      else
        var f1 :- Write(g, f, lpn, flags, data);
        if LowOnBlocks(g, f1, k.threshold) then Collect(g, f1.(reclaimMore := false), victims) else Ok(f1)
    case TrimOp(lpn) => Trim(g, f, lpn)
  }

  /** The victims named by the operation are ones the source could have selected. */
  ghost predicate Legal(g: Geometry, k: Policy, f: Ftl, op: Op)
    requires 1 <= g.total && op.Shaped(g)
  {
    op.WriteOp? && AnyBit(op.flags) ==>
      var r := Write(g, f, op.lpn, op.flags, op.data);
      r.Ok? && LowOnBlocks(g, r.value, k.threshold) ==>
        GreedyChoice(g, r.value, ReclaimCount(g, r.value, k), op.victims)
  }

  /** If the operation starts a collection, the pages of its victims are reported as they are. With several
      units per page that is always so. */
  ghost predicate Truthful(g: Geometry, k: Policy, f: Ftl, op: Op)
    requires 1 <= g.total && op.Shaped(g)
  {
    op.WriteOp? && AnyBit(op.flags) ==>
      var r := Write(g, f, op.lpn, op.flags, op.data);
      r.Ok? && LowOnBlocks(g, r.value, k.threshold) ==> HonestVictims(g, r.value, op.victims, 0)
  }

  lemma SeveralUnitsAreTruthful(g: Geometry, k: Policy, f: Ftl, op: Op)
    requires 1 <= g.total && op.Shaped(g) && 1 < g.units
    ensures Truthful(g, k, f, op)
  {
    hide Write;
  }

  function HostStep(units: nat, h: Host, op: Op): Host
    requires op.WriteOp? ==> |op.flags| == |op.data| == units
  {
    match op
    case WriteOp(lpn, flags, data, _) => if AnyBit(flags) then HostWrite(units, h, lpn, flags, data) else h
    case TrimOp(lpn) => h - {lpn}
  }

  /** The faults a legal operation can end in; the others never happen. */
  const ReachableFaults: set<Fault> := {Corrupted, NoFreeBlock, EmptyFreeList, BlockNotInUse}

  /** Reading what is mapped does not depend on the reclaim flag. */
  lemma ReclaimFlag(g: Geometry, f: Ftl, b: bool)
    requires Inv(g, f)
    ensures var f' := f.(reclaimMore := b);
            Inv(g, f') && View(g, f') == View(g, f) && (Healthy(f) <==> Healthy(f'))
  {
    var f' := f.(reclaimMore := b);
    SameImagesSameSeen(g, f, f');
    SameSeenSameView(g, f, f');
  }

  lemma StepRefines(g: Geometry, k: Policy, f: Ftl, op: Op)
    requires g.Valid() && Inv(g, f) && op.Shaped(g) && Legal(g, k, f, op) && Truthful(g, k, f, op)
    ensures var r := Step(g, k, f, op);
            && (r.Panic? ==> r.why in ReachableFaults)
            && (r.Ok? ==> Inv(g, r.value) && View(g, r.value) == HostStep(g.units, View(g, f), op))
  {
    hide Inv, View, HostWrite, Write, Trim, Collect, Victims, FullBlocks, HonestVictims;
    match op
    case TrimOp(lpn) =>
      TrimIsHostTrim(g, f, lpn);
    case WriteOp(lpn, flags, data, victims) =>
      WriteIsHostWrite(g, f, lpn, flags, data);
      if AnyBit(flags) && Write(g, f, lpn, flags, data).Ok? {
        var f1 := Write(g, f, lpn, flags, data).value;
        if LowOnBlocks(g, f1, k.threshold) {
          ReclaimFlag(g, f1, false);
          VictimsFlag(g, f1, victims);
          CollectIsInvisible(g, f1.(reclaimMore := false), victims);
        }
      }
  }

  lemma VictimsFlag(g: Geometry, f: Ftl, victims: seq<nat>)
    requires Victims(g, f, victims)
    ensures Victims(g, f.(reclaimMore := false), victims)
    ensures HonestVictims(g, f.(reclaimMore := false), victims, 0) == HonestVictims(g, f, victims, 0)
  {
  }

  // ----- runs ------------------------------------------------------------------------------------------

  function Run(g: Geometry, k: Policy, f: Ftl, ops: seq<Op>): Result
    requires 1 <= g.total && forall i :: 0 <= i < |ops| ==> ops[i].Shaped(g)
    decreases |ops|
  {
    if ops == [] then Ok(f)
    else
      var f1 :- Step(g, k, f, ops[0]);
      Run(g, k, f1, ops[1..])
  }

  ghost predicate LegalRun(g: Geometry, k: Policy, f: Ftl, ops: seq<Op>)
    requires 1 <= g.total && forall i :: 0 <= i < |ops| ==> ops[i].Shaped(g)
    decreases |ops|
  {
    ops != [] ==>
      && Legal(g, k, f, ops[0])
      && var r := Step(g, k, f, ops[0]);
      r.Ok? ==> LegalRun(g, k, r.value, ops[1..])
  }

  ghost predicate TruthfulRun(g: Geometry, k: Policy, f: Ftl, ops: seq<Op>)
    requires 1 <= g.total && forall i :: 0 <= i < |ops| ==> ops[i].Shaped(g)
    decreases |ops|
  {
    ops != [] ==>
      && Truthful(g, k, f, ops[0])
      && var r := Step(g, k, f, ops[0]);
      r.Ok? ==> TruthfulRun(g, k, r.value, ops[1..])
  }

  lemma {:induction false} SeveralUnitsRunTruthfully(g: Geometry, k: Policy, f: Ftl, ops: seq<Op>)
    requires 1 <= g.total && 1 < g.units && forall i :: 0 <= i < |ops| ==> ops[i].Shaped(g)
    ensures TruthfulRun(g, k, f, ops)
    decreases |ops|
  {
    hide Step, Truthful;
    if ops != [] {
      SeveralUnitsAreTruthful(g, k, f, ops[0]);
      var r := Step(g, k, f, ops[0]);
      if r.Ok? { SeveralUnitsRunTruthfully(g, k, r.value, ops[1..]); }
    }
  }

  function HostRun(units: nat, h: Host, ops: seq<Op>): Host
    requires forall i :: 0 <= i < |ops| ==> ops[i].WriteOp? ==> |ops[i].flags| == |ops[i].data| == units
    decreases |ops|
  {
    if ops == [] then h else HostRun(units, HostStep(units, h, ops[0]), ops[1..])
  }

  /** Any run of writes, trims and the collections they start keeps the invariant and shows the host
      exactly what it wrote; the only faults it can end in are the four reachable ones. */
  lemma {:induction false} RunRefines(g: Geometry, k: Policy, f: Ftl, ops: seq<Op>)
    requires g.Valid() && Inv(g, f) && forall i :: 0 <= i < |ops| ==> ops[i].Shaped(g)
    requires LegalRun(g, k, f, ops) && TruthfulRun(g, k, f, ops)
    ensures var r := Run(g, k, f, ops);
            && (r.Panic? ==> r.why in ReachableFaults)
            && (r.Ok? ==> Inv(g, r.value) && View(g, r.value) == HostRun(g.units, View(g, f), ops))
    decreases |ops|
  {
    hide View, Shape, Partition, Forward, Backward, Step, HostStep, Legal, Truthful;
    if ops != [] {
      StepRefines(g, k, f, ops[0]);
      var r := Step(g, k, f, ops[0]);
      if r.Ok? {
        RunRefines(g, k, r.value, ops[1..]);
      }
    }
  }

  /** The value of unit u of an LPN according to the request history alone: what the last write that
      flagged the unit carried, unless the LPN was trimmed since. */
  function LastWritten(ops: seq<Op>, l: nat, u: nat): Option<Data> {
    if ops == [] then None
    else
      var op := ops[|ops| - 1];
      if op.WriteOp? && op.lpn == l && u < |op.flags| && u < |op.data| && op.flags[u] then Some(op.data[u])
      else if op.TrimOp? && op.lpn == l then None
      else LastWritten(ops[..|ops| - 1], l, u)
  }

  function Lookup(h: Host, l: nat, u: nat): Option<Data> {
    if l in h then Sub(h[l], u) else None
  }

  lemma {:induction false} HostRunSnoc(units: nat, h: Host, ops: seq<Op>, op: Op)
    requires forall i :: 0 <= i < |ops| ==> ops[i].WriteOp? ==> |ops[i].flags| == |ops[i].data| == units
    requires op.WriteOp? ==> |op.flags| == |op.data| == units
    ensures HostRun(units, h, ops + [op]) == HostStep(units, HostRun(units, h, ops), op)
    decreases |ops|
  {
    if ops == [] {
      assert (ops + [op])[1..] == [];
    } else {
      assert (ops + [op])[1..] == ops[1..] + [op];
      HostRunSnoc(units, HostStep(units, h, ops[0]), ops[1..], op);
    }
  }

  lemma {:induction false} HostRunLastWritten(units: nat, ops: seq<Op>, l: nat, u: nat)
    requires forall i :: 0 <= i < |ops| ==> ops[i].WriteOp? ==> |ops[i].flags| == |ops[i].data| == units
    requires u < units
    ensures Lookup(HostRun(units, map[], ops), l, u) == LastWritten(ops, l, u)
    decreases |ops|
  {
    if ops != [] {
      var prefix, op := ops[..|ops| - 1], ops[|ops| - 1];
      assert ops == prefix + [op];
      HostRunSnoc(units, map[], prefix, op);
      HostRunLastWritten(units, prefix, l, u);
    }
  }

  /** On a fresh device, after any run, reading unit u of an LPN gives the value last written to it. */
  lemma ReadsLastWritten(g: Geometry, k: Policy, ops: seq<Op>, l: nat, u: nat)
    requires g.Valid() && Fresh(g).Ok? && forall i :: 0 <= i < |ops| ==> ops[i].Shaped(g)
    requires LegalRun(g, k, Fresh(g).value, ops) && (1 < g.units || TruthfulRun(g, k, Fresh(g).value, ops))
    requires Run(g, k, Fresh(g).value, ops).Ok? && u < g.units
    ensures var f := Run(g, k, Fresh(g).value, ops).value;
            && Inv(g, f)
            && (if l in f.table then Seen(g, f, l, u) else None) == LastWritten(ops, l, u)
  {
    hide LegalRun, TruthfulRun;
    FreshDevice(g);
    if 1 < g.units { SeveralUnitsRunTruthfully(g, k, Fresh(g).value, ops); }
    RunRefines(g, k, Fresh(g).value, ops);
    HostRunLastWritten(g.units, ops, l, u);
    var f := Run(g, k, Fresh(g).value, ops).value;
    assert Lookup(View(g, f), l, u) == if l in f.table then Seen(g, f, l, u) else None;
  }
}
