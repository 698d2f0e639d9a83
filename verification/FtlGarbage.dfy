/** Whole garbage collections: what the host sees does not change, and whether the erase phase can fail. */
module FtlGarbage {
  import opened FtlState
  import opened FtlSteps
  import opened FtlInvariant
  import opened FtlCollect

  lemma SameSeenTrans(g: Geometry, f0: Ftl, f1: Ftl, f2: Ftl)
    requires Inv(g, f0) && Inv(g, f1) && Inv(g, f2)
    requires SameSeen(g, f0, f1) && SameSeen(g, f1, f2)
    ensures SameSeen(g, f0, f2)
  {
  }

  lemma SameSeenSameView(g: Geometry, f: Ftl, f': Ftl)
    requires Inv(g, f) && Inv(g, f') && SameSeen(g, f, f')
    ensures View(g, f') == View(g, f)
  {
    assert View(g, f').Keys == View(g, f).Keys;
    forall l | l in f.table
      ensures View(g, f')[l] == View(g, f)[l]
    {
      assert forall i :: 0 <= i < g.units ==> Seen(g, f', l, i) == Seen(g, f, l, i);
    }
  }

  /** Blocks i, i + 1, ... of the list can be erased. */
  ghost predicate Erasable(g: Geometry, f: Ftl, victims: seq<nat>, i: nat) {
    && Distinct(victims)
    && forall k :: i <= k < |victims| ==> victims[k] in f.used && victims[k] < g.total && Clean(g, f, victims[k])
  }

  lemma ErasableNext(g: Geometry, f: Ftl, f': Ftl, victims: seq<nat>, i: nat)
    requires Shape(g, f) && Erasable(g, f, victims, i) && i < |victims|
    requires f'.used == f.used - {victims[i]} && f'.pool == f.pool[victims[i] := Erased(f.pool[victims[i]])]
    ensures Erasable(g, f', victims, i + 1)
  {
    forall k | i + 1 <= k < |victims|
      ensures victims[k] in f'.used && Clean(g, f', victims[k])
    {
      assert victims[k] != victims[i] && Clean(g, f, victims[k]);
      forall p | 0 <= p < g.pages ensures Drained(f', victims[k], p) {
        assert Drained(f, victims[k], p);
        assert forall u :: At(f'.pool, victims[k], p, u) == At(f.pool, victims[k], p, u);
      }
    }
  }

  ghost predicate SomeReturns(g: Geometry, f: Ftl, victims: seq<nat>, i: nat)
    requires Shape(g, f)
  {
    exists k :: i <= k < |victims| && victims[k] < g.total && f.pool[victims[k]].wear + 1 < g.worn
  }

  /** How many of the victims i, i + 1, ... are not worn out by one more erase. */
  ghost function Returning(g: Geometry, f: Ftl, victims: seq<nat>, i: nat): nat
    decreases |victims| - i
  {
    if i >= |victims| then 0
    else
      (if victims[i] < |f.pool| && f.pool[victims[i]].wear + 1 < g.worn then 1 else 0) + Returning(g, f, victims, i + 1)
  }

  /** That depends on the wear of the victims alone. */
  lemma {:induction false} ReturningSame(g: Geometry, f: Ftl, f': Ftl, victims: seq<nat>, i: nat)
    requires |f'.pool| == |f.pool|
    requires forall k :: i <= k < |victims| && victims[k] < |f.pool| ==>
        f'.pool[victims[k]].wear == f.pool[victims[k]].wear
    ensures Returning(g, f', victims, i) == Returning(g, f, victims, i)
    decreases |victims| - i
  {
    if i < |victims| { ReturningSame(g, f, f', victims, i + 1); }
  }

  ghost function From(victims: seq<nat>, i: nat): set<nat> {
    set k: nat | i <= k < |victims| :: victims[k]
  }

  /** Erasing the victims loses nothing; it goes wrong exactly when the free list is empty and some
      victim is not worn out. */
  lemma {:induction false} EraseVictimsKeeps(g: Geometry, f: Ftl, victims: seq<nat>, i: nat)
    requires Inv(g, f) && Erasable(g, f, victims, i)
    ensures var r := EraseVictims(g, f, victims, i);
            && (r.Panic? <==> f.free == [] && SomeReturns(g, f, victims, i))
            && (r.Panic? ==> r.why == EmptyFreeList)
            && (r.Ok? ==>
                  && Inv(g, r.value) && SameSeen(g, f, r.value)
                  && r.value.active == f.active && r.value.used == f.used - From(victims, i)
                  && |r.value.free| == |f.free| + Returning(g, f, victims, i))
    decreases |victims| - i
  {
    hide EraseBlock, Partition, Forward, Backward, Disciplined, SameSeen, Erased;
    if i < |victims| {
      var v := victims[i];
      EraseOutcome(g, f, v);
      var r := EraseBlock(g, f, v);
      assert From(victims, i) == From(victims, i + 1) + {v};
      if r.Ok? {
        EraseBlockKeeps(g, f, v);
        ErasableNext(g, f, r.value, victims, i);
        EraseVictimsKeeps(g, r.value, victims, i + 1);
        ReturningSame(g, f, r.value, victims, i + 1);
        assert forall k :: i + 1 <= k < |victims| ==> victims[k] != v;
        if EraseVictims(g, r.value, victims, i + 1).Ok? {
          SameSeenTrans(g, f, r.value, EraseVictims(g, r.value, victims, i + 1).value);
        }
      }
    } else {
      SameSeenRefl(g, f);
    }
  }

  lemma SameSeenRefl(g: Geometry, f: Ftl)
    requires Inv(g, f)
    ensures SameSeen(g, f, f)
  {
  }

  /** Garbage collection of full, distinct victims keeps the invariant and is invisible to the host.
      It can only fail for want of a destination block, or of a free list to return a block to. */
  lemma CollectIsInvisible(g: Geometry, f: Ftl, victims: seq<nat>)
    requires Inv(g, f) && Victims(g, f, victims) && HonestVictims(g, f, victims, 0)
    ensures var r := Collect(g, f, victims);
            && (r.Panic? ==> r.why in {Corrupted, NoFreeBlock, EmptyFreeList})
            && (r.Panic? && Healthy(f) ==> r.why != Corrupted)
            && (r.Ok? ==> Inv(g, r.value) && View(g, r.value) == View(g, f))
  {
    hide Moved, Inv, Healthy, SameSeen, View, Victims, Clean, Erasable, CopyVictims, EraseVictims, HonestVictims;
    CopyVictimsKeeps(g, f, victims, 0);
    var r := CopyVictims(g, f, victims, 0);
    if r.Ok? {
      MovedInvisible(g, f, r.value, victims);
      EraseVictimsKeeps(g, r.value, victims, 0);
      var r2 := EraseVictims(g, r.value, victims, 0);
      if r2.Ok? {
        SameSeenTrans(g, f, r.value, r2.value);
        SameSeenSameView(g, f, r2.value);
      }
    }
  }

  lemma MovedInvisible(g: Geometry, f: Ftl, f': Ftl, victims: seq<nat>)
    requires Moved(g, f, f') && Victims(g, f', victims)
    requires forall k :: 0 <= k < |victims| ==> Clean(g, f', victims[k])
    ensures Inv(g, f') && SameSeen(g, f, f') && Erasable(g, f', victims, 0)
  {
  }
}
