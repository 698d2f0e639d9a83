/** Active blocks and free blocks over whole runs: when they stay intact, and when every request succeeds. */
module FtlHealth {
  import opened Outcomes
  import opened FtlState
  import opened FtlSteps
  import opened FtlWrite
  import opened FtlCollect
  import opened FtlGarbage
  import opened FtlSlots
  import opened FtlBudget
  import opened FtlRun

  /** Every slot that holds a victim is visited while the victims are copied. */
  ghost predicate Spares(g: Geometry, f: Ftl, victims: seq<nat>)
    requires forall k :: 0 <= k < |victims| ==> victims[k] < |f.pool|
  {
    forall s :: 0 <= s < |f.active| && f.active[s] in victims ==> s in Visited(g, f, victims)
  }

  /** If the operation starts a collection, the collection spares the active slots. */
  ghost predicate Sparing(g: Geometry, k: Policy, f: Ftl, op: Op)
    requires 1 <= g.total && op.Shaped(g)
  {
    op.WriteOp? && AnyBit(op.flags) ==>
      var r := Write(g, f, op.lpn, op.flags, op.data);
      r.Ok? && LowOnBlocks(g, r.value, k.threshold) ==>
        && (forall i :: 0 <= i < |op.victims| ==> op.victims[i] < |r.value.pool|)
        && Spares(g, r.value.(reclaimMore := false), op.victims)
  }

  ghost predicate SparingRun(g: Geometry, k: Policy, f: Ftl, ops: seq<Op>)
    requires 1 <= g.total && forall i :: 0 <= i < |ops| ==> ops[i].Shaped(g)
    decreases |ops|
  {
    ops != [] ==>
      && Sparing(g, k, f, ops[0])
      && var r := Step(g, k, f, ops[0]);
      r.Ok? ==> SparingRun(g, k, r.value, ops[1..])
  }

  lemma CollectStaysHealthy(g: Geometry, f: Ftl, victims: seq<nat>)
    requires Inv(g, f) && Healthy(f) && Victims(g, f, victims) && HonestVictims(g, f, victims, 0)
    requires Collect(g, f, victims).Ok?
    ensures Healthy(Collect(g, f, victims).value) <==> Spares(g, f, victims)
  {
    HealthAfterCollect(g, f, victims);
  }

  /** From intact slots, an operation leaves them intact exactly when its collection spares them. */
  lemma StepStaysHealthy(g: Geometry, k: Policy, f: Ftl, op: Op)
    requires g.Valid() && Inv(g, f) && Healthy(f) && op.Shaped(g) && Legal(g, k, f, op) && Truthful(g, k, f, op)
    ensures var r := Step(g, k, f, op);
            && r != Panic(Corrupted)
            && (r.Ok? ==> (Healthy(r.value) <==> Sparing(g, k, f, op)))
  {
    hide Inv, Healthy, View, HostWrite, Write, Trim, Collect, Spares, HonestVictims;
    match op
    case TrimOp(lpn) =>
      TrimIsHostTrim(g, f, lpn);
    case WriteOp(lpn, flags, data, victims) =>
      WriteIsHostWrite(g, f, lpn, flags, data);
      HealthyIsNotStranded(g, f, flags);
      if AnyBit(flags) && Write(g, f, lpn, flags, data).Ok? {
        var f1 := Write(g, f, lpn, flags, data).value;
        if LowOnBlocks(g, f1, k.threshold) {
          ReclaimFlag(g, f1, false);
          VictimsFlag(g, f1, victims);
          var f2 := f1.(reclaimMore := false);
          CollectIsInvisible(g, f2, victims);
          if Collect(g, f2, victims).Ok? {
            CollectStaysHealthy(g, f2, victims);
          }
        }
      }
  }

  lemma HealthyIsNotStranded(g: Geometry, f: Ftl, flags: seq<bool>)
    requires Inv(g, f) && Healthy(f)
    ensures !Stranded(g, f, flags)
  {
  }

  /** A run from a healthy state never meets a missing active block as long as each of its collections
      spares the active slots. */
  lemma {:induction false} SparingRunIsNeverCorrupted(g: Geometry, k: Policy, f: Ftl, ops: seq<Op>)
    requires g.Valid() && Inv(g, f) && Healthy(f)
    requires forall i :: 0 <= i < |ops| ==> ops[i].Shaped(g)
    requires LegalRun(g, k, f, ops) && TruthfulRun(g, k, f, ops) && SparingRun(g, k, f, ops)
    ensures Run(g, k, f, ops) != Panic(Corrupted)
    ensures Run(g, k, f, ops).Ok? ==> Healthy(Run(g, k, f, ops).value)
    decreases |ops|
  {
    hide Inv, Healthy, Step, Sparing, Legal, Truthful;
    if ops != [] {
      StepRefines(g, k, f, ops[0]);
      StepStaysHealthy(g, k, f, ops[0]);
      var r := Step(g, k, f, ops[0]);
      if r.Ok? {
        SparingRunIsNeverCorrupted(g, k, r.value, ops[1..]);
      }
    }
  }

  /** The free list covers the operation: a write finds its slot writable or a block to replace it, a
      collection finds more free blocks than victims and slots together, a trim finds every unit mapped. */
  ghost predicate Covered(g: Geometry, k: Policy, f: Ftl, op: Op)
    requires Inv(g, f) && op.Shaped(g)
  {
    match op
    case TrimOp(lpn) => !PartlyMapped(g, f, lpn, 0)
    case WriteOp(lpn, flags, data, victims) =>
      AnyBit(flags) ==>
        && !Exhausted(g, f, flags)
        && var r := Write(g, f, lpn, flags, data);
        r.Ok? && LowOnBlocks(g, r.value, k.threshold) ==> |victims| + g.slots < |r.value.free|
  }

  /** From intact slots, an operation the free list covers cannot panic at all. */
  lemma CoveredStepSucceeds(g: Geometry, k: Policy, f: Ftl, op: Op)
    requires g.Valid() && Inv(g, f) && Healthy(f) && op.Shaped(g) && Legal(g, k, f, op) && Truthful(g, k, f, op)
    requires Covered(g, k, f, op)
    ensures Step(g, k, f, op).Ok?
  {
    hide Inv, Healthy, View, HostWrite, Write, Trim, Collect, Exhausted, Stranded, HonestVictims;
    match op
    case TrimOp(lpn) =>
      TrimIsHostTrim(g, f, lpn);
    case WriteOp(lpn, flags, data, victims) =>
      WriteIsHostWrite(g, f, lpn, flags, data);
      HealthyIsNotStranded(g, f, flags);
      if AnyBit(flags) && Write(g, f, lpn, flags, data).Ok? {
        var f1 := Write(g, f, lpn, flags, data).value;
        if LowOnBlocks(g, f1, k.threshold) {
          ReclaimFlag(g, f1, false);
          VictimsFlag(g, f1, victims);
          CollectSucceeds(g, f1.(reclaimMore := false), victims);
        }
      }
  }

  /** Every operation of the run is covered by the free list at its time. */
  ghost predicate CoveredRun(g: Geometry, k: Policy, f: Ftl, ops: seq<Op>)
    requires 1 <= g.total && forall i :: 0 <= i < |ops| ==> ops[i].Shaped(g)
    decreases |ops|
  {
    ops != [] ==>
      && (Inv(g, f) ==> Covered(g, k, f, ops[0]))
      && var r := Step(g, k, f, ops[0]);
      r.Ok? ==> CoveredRun(g, k, r.value, ops[1..])
  }

  /** A run that is covered and spares the active slots never panics, keeps the slots intact and shows the host
      exactly what it wrote. */
  lemma {:induction false} CoveredRunSucceeds(g: Geometry, k: Policy, f: Ftl, ops: seq<Op>)
    requires g.Valid() && Inv(g, f) && Healthy(f) && forall i :: 0 <= i < |ops| ==> ops[i].Shaped(g)
    requires LegalRun(g, k, f, ops) && TruthfulRun(g, k, f, ops) && SparingRun(g, k, f, ops) && CoveredRun(g, k, f, ops)
    ensures var r := Run(g, k, f, ops);
            r.Ok? && Inv(g, r.value) && Healthy(r.value) && View(g, r.value) == HostRun(g.units, View(g, f), ops)
    decreases |ops|
  {
    hide Shape, Partition, Forward, Backward, Healthy, Step, Sparing, Legal, Truthful, Covered, View, HostStep;
    if ops != [] {
      StepRefines(g, k, f, ops[0]);
      StepStaysHealthy(g, k, f, ops[0]);
      CoveredStepSucceeds(g, k, f, ops[0]);
      CoveredRunSucceeds(g, k, Step(g, k, f, ops[0]).value, ops[1..]);
    }
  }
}
