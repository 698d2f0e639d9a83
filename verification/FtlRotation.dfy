/** Which active slots a series of requests uses. */
module FtlRotation {
  import opened Outcomes
  import opened Arithmetic
  import opened FtlState
  import opened FtlSteps
  import opened FtlInvariant

  /** A series of requests for destination blocks: `before[i]` meets request i and `after[i]` is what it leaves. In
      between anything may happen that does not ask for a block. */
  ghost predicate Series(g: Geometry, requests: seq<seq<bool>>, before: seq<Ftl>, after: seq<Ftl>) {
    && |before| == |after| == |requests|
    && (forall i :: 0 <= i < |requests| ==>
          && before[i].cursor < g.slots && |before[i].ioMap| == |requests[i]| == g.units
          && Acquire(g, before[i], requests[i]) == Ok(after[i]))
    && (forall i :: 0 < i < |requests| ==>
          before[i].cursor == after[i - 1].cursor && before[i].ioMap == after[i - 1].ioMap)
  }

  lemma SeriesTurns(g: Geometry, requests: seq<seq<bool>>, before: seq<Ftl>, after: seq<Ftl>, i: nat)
    requires Series(g, requests, before, after) && i < |requests|
    ensures after[i].cursor < g.slots
    ensures Turned(g, before[i].cursor, before[i].ioMap, requests[i], after[i].cursor, after[i].ioMap)
  {
    hide Turned;
    AcquireTurns(g, before[i], requests[i]);
  }

  /** Whatever else is wrong with the state: a request that gets a block has moved as it should. */
  lemma AcquireTurns(g: Geometry, f: Ftl, flags: seq<bool>)
    requires f.cursor < g.slots && Acquire(g, f, flags).Ok?
    ensures var f' := Acquire(g, f, flags).value;
            && f'.cursor < g.slots && f'.cursor < |f'.active|
            && Turned(g, f.cursor, f.ioMap, flags, f'.cursor, f'.ioMap)
  {
    RotateTurns(g, f, flags);
    hide Turned, Full;
  }

  predicate FullPage(flags: seq<bool>) {
    forall u :: 0 <= u < |flags| ==> flags[u]
  }

  /** Some unit was asked for at this slot, or no request stays. */
  ghost predicate Moving(g: Geometry, asked: seq<bool>) {
    !g.tweak || exists u :: 0 <= u < |asked| && asked[u]
  }

  lemma FullPageTurns(g: Geometry, cursor: nat, asked: seq<bool>, flags: seq<bool>, cursor': nat, asked': seq<bool>)
    requires cursor < g.slots && Turned(g, cursor, asked, flags, cursor', asked')
    requires 1 <= g.units == |asked| == |flags| && FullPage(flags)
    ensures |asked'| == g.units && FullPage(asked') && Moving(g, asked')
    ensures cursor' == (cursor + if Moving(g, asked) then 1 else 0) % g.slots
  {
    Combine(g.slots, 0, cursor);
    assert |asked'| == g.units && asked'[0];
  }

  /** i steps on from slot x. */
  function StepOn(x: nat, i: nat, n: nat): nat
    requires 0 < n
  {
    (x + i) % n
  }

  ghost function FirstSlot(g: Geometry, f: Ftl): nat {
    f.cursor + if Moving(g, f.ioMap) then 1 else 0
  }

  /** The slot of request i of full pages: one after the other, from the current slot if nothing was asked for
      there yet, and from the next one otherwise. */
  lemma {:induction false} FullPagesGoRound(g: Geometry, requests: seq<seq<bool>>, before: seq<Ftl>, after: seq<Ftl>,
      i: nat)
    requires Series(g, requests, before, after) && i < |requests| && 1 <= g.units
    requires forall k :: 0 <= k < |requests| ==> FullPage(requests[k])
    ensures 1 <= g.slots
    ensures after[i].cursor == StepOn(FirstSlot(g, before[0]), i, g.slots)
    ensures |after[i].ioMap| == g.units && Moving(g, after[i].ioMap)
    decreases i
  {
    hide Turned, Acquire, FullPage, Moving;
    SeriesTurns(g, requests, before, after, i);
    FullPageTurns(g, before[i].cursor, before[i].ioMap, requests[i], after[i].cursor, after[i].ioMap);
    if i > 0 {
      FullPagesGoRound(g, requests, before, after, i - 1);
      NextModulo(FirstSlot(g, before[0]) + i - 1, g.slots);
    }
  }

  lemma NextModulo(x: nat, n: nat)
    requires 0 < n
    ensures (x % n + 1) % n == (x + 1) % n
  {
    DivMod(x, n);
    AddMultiple(x % n + 1, x / n, n);
  }

  /** As many full-page requests in a row as there are slots visit every slot once. */
  lemma FullPagesVisitEverySlotOnce(g: Geometry, requests: seq<seq<bool>>, before: seq<Ftl>, after: seq<Ftl>, s: nat)
    requires Series(g, requests, before, after) && |requests| == g.slots && s < g.slots && 1 <= g.units
    requires forall k :: 0 <= k < |requests| ==> FullPage(requests[k])
    ensures exists i :: && 0 <= i < g.slots && after[i].cursor == s
                        && forall j :: 0 <= j < g.slots && after[j].cursor == s ==> j == i
  {
    hide Acquire, Turned, FullPage, StepOn, FirstSlot;
    var base := FirstSlot(g, before[0]);
    forall j | 0 <= j < g.slots
      ensures after[j].cursor == StepOn(base, j, g.slots)
    {
      FullPagesGoRound(g, requests, before, after, j);
    }
    var i := ReachSlot(base, g.slots, s);
    forall j | 0 <= j < g.slots && after[j].cursor == s
      ensures j == i
    {
      SameSlot(base, g.slots, i, j);
    }
  }

  /** Some step below n goes from x to s modulo n. */
  lemma ReachSlot(x: nat, n: nat, s: nat) returns (i: nat)
    requires s < n
    ensures i < n && StepOn(x, i, n) == s
  {
    DivMod(x, n);
    i := if x % n <= s then s - x % n else s + n - x % n;
    AddMultiple(x % n + i, x / n, n);
    Combine(n, 0, s);
    Combine(n, 1, s);
  }

  lemma SameSlot(x: nat, n: nat, i: nat, j: nat)
    requires i < n && j < n && StepOn(x, i, n) == StepOn(x, j, n)
    ensures i == j
  {
    DivMod(x + i, n);
    DivMod(x + j, n);
    var p, q := (x + i) / n, (x + j) / n;
    if p < q {
      assert (q - p) * n == q * n - p * n;
      AtLeastOnce(q - p, n);
      assert false;
    }
    if q < p {
      assert (p - q) * n == p * n - q * n;
      AtLeastOnce(p - q, n);
      assert false;
    }
  }

  // ----- units of a slot -----------------------------------------------------------------------------------------

  /** Request i finds one of its units taken at the current slot. */
  ghost predicate Moves(g: Geometry, f: Ftl, flags: seq<bool>) {
    !g.tweak || exists u :: 0 <= u < |f.ioMap| && u < |flags| && f.ioMap[u] && flags[u]
  }

  /** No request from i + 1 to j moves on. */
  ghost predicate Stays(g: Geometry, requests: seq<seq<bool>>, before: seq<Ftl>, i: int, j: int)
    requires |before| == |requests| && -1 <= i && j < |requests|
  {
    forall k :: i < k <= j ==> !Moves(g, before[k], requests[k])
  }

  /** What is asked for is recorded, and what is recorded stays until a request moves on. */
  lemma Records(g: Geometry, requests: seq<seq<bool>>, before: seq<Ftl>, after: seq<Ftl>, j: nat, u: nat)
    requires Series(g, requests, before, after) && j < |requests| && u < g.units
    ensures |after[j].ioMap| == g.units && (requests[j][u] ==> after[j].ioMap[u])
    ensures !Moves(g, before[j], requests[j]) ==>
              after[j].cursor == before[j].cursor && (before[j].ioMap[u] ==> after[j].ioMap[u])
  {
    hide Acquire;
    SeriesTurns(g, requests, before, after, j);
  }

  /** As long as no request moves on, all units asked for stay recorded. */
  lemma {:induction false} AskedStays(g: Geometry, requests: seq<seq<bool>>, before: seq<Ftl>, after: seq<Ftl>, i: nat,
      j: nat, u: nat)
    requires Series(g, requests, before, after) && i <= j < |requests| && u < g.units && requests[i][u]
    requires Stays(g, requests, before, i, j)
    ensures |after[j].ioMap| == g.units && after[j].ioMap[u] && after[j].cursor == after[i].cursor
    decreases j
  {
    hide Acquire, Moves;
    Records(g, requests, before, after, j, u);
    if i < j { AskedStays(g, requests, before, after, i, j - 1, u); }
  }

  /** Between two moves no unit is asked for twice at a slot. So a request moves on as soon as one of its units was
      asked for since the last move, and only then. */
  lemma SlotServesUnitOnce(g: Geometry, requests: seq<seq<bool>>, before: seq<Ftl>, after: seq<Ftl>, i: nat, j: nat,
      u: nat)
    requires Series(g, requests, before, after) && i < j < |requests| && u < g.units
    requires Stays(g, requests, before, i, j)
    ensures !(requests[i][u] && requests[j][u])
  {
    hide Acquire;
    if requests[i][u] && requests[j][u] {
      AskedStays(g, requests, before, after, i, j - 1, u);
      AskedTwice(g, before[j], requests[j], u);
    }
  }

  lemma AskedTwice(g: Geometry, f: Ftl, flags: seq<bool>, u: nat)
    requires u < |f.ioMap| && u < |flags| && f.ioMap[u] && flags[u]
    ensures Moves(g, f, flags)
  {
  }

  /** The converse: a unit recorded at a slot was asked for since the last move, or before the series. */
  lemma {:induction false} RecordedWasAsked(g: Geometry, requests: seq<seq<bool>>, before: seq<Ftl>, after: seq<Ftl>,
      j: nat, u: nat)
    requires Series(g, requests, before, after) && j < |requests| && u < g.units
    requires |after[j].ioMap| == g.units && after[j].ioMap[u]
    ensures || (exists i :: 0 <= i <= j && requests[i][u] && Stays(g, requests, before, i, j))
            || (before[0].ioMap[u] && Stays(g, requests, before, -1, j))
    decreases j
  {
    hide Acquire;
    if requests[j][u] {
      assert Stays(g, requests, before, j, j);
    } else {
      WasRecorded(g, requests, before, after, j, u);
      if j > 0 {
        RecordedWasAsked(g, requests, before, after, j - 1, u);
        if i :| 0 <= i <= j - 1 && requests[i][u] && Stays(g, requests, before, i, j - 1) {
          assert Stays(g, requests, before, i, j);
        }
      }
    }
  }

  lemma WasRecorded(g: Geometry, requests: seq<seq<bool>>, before: seq<Ftl>, after: seq<Ftl>, j: nat, u: nat)
    requires Series(g, requests, before, after) && j < |requests| && u < g.units
    requires |after[j].ioMap| == g.units && after[j].ioMap[u] && !requests[j][u]
    ensures before[j].ioMap[u] && !Moves(g, before[j], requests[j])
  {
    SeriesTurns(g, requests, before, after, j);
  }

  // ----- host writes ---------------------------------------------------------------------------------------------

  predicate SameWheel(f: Ftl, f': Ftl) {
    f'.cursor == f.cursor && f'.ioMap == f.ioMap
  }

  lemma {:induction false} InvalidateKeepsWheel(g: Geometry, f: Ftl, lpn: nat, flags: seq<bool>, u: nat)
    requires InvalidateFrom(g, f, lpn, flags, u).Ok?
    ensures SameWheel(f, InvalidateFrom(g, f, lpn, flags, u).value)
    decreases g.Mapped() - u
  {
    if u < g.Mapped() {
      if !g.Selects(flags, u) || !InRange(g, f.table[lpn][u]) {
        InvalidateKeepsWheel(g, f, lpn, flags, u + 1);
      } else {
        var e := f.table[lpn][u];
        InvalidateKeepsWheel(g, InvalidateAt(f, e.block, e.page, u).value, lpn, flags, u + 1);
      }
    }
  }

  lemma {:induction false} ProgramKeepsWheel(g: Geometry, f: Ftl, b: nat, lpn: nat, flags: seq<bool>, data: seq<Data>,
      u: nat)
    requires |flags| == |data| == g.units && ProgramFrom(g, f, b, lpn, flags, data, u).Ok?
    ensures SameWheel(f, ProgramFrom(g, f, b, lpn, flags, data, u).value)
    decreases g.Mapped() - u
  {
    hide Merged, Programmed;
    if u < g.Mapped() {
      if !g.Selects(flags, u) {
        ProgramKeepsWheel(g, f, b, lpn, flags, data, u + 1);
      } else {
        var image := Merged(g, f, lpn, u, flags, data);
        ProgramKeepsWheel(g, Program(f, b, lpn, u, image).value, b, lpn, flags, data, u + 1);
      }
    }
  }

  /** A host write asks for one block, and so moves over the slots by the rule. */
  lemma WriteTurns(g: Geometry, f: Ftl, lpn: nat, flags: seq<bool>, data: seq<Data>)
    requires f.cursor < g.slots && |flags| == |data| == g.units && Write(g, f, lpn, flags, data).Ok?
    ensures var f' := Write(g, f, lpn, flags, data).value;
            Turned(g, f.cursor, f.ioMap, flags, f'.cursor, f'.ioMap)
  {
    hide Acquire, Turned, InvalidateFrom, ProgramFrom;
    var f1 := if lpn in f.table then InvalidateFrom(g, f, lpn, flags, 0).value else Enter(g, f, lpn);
    if lpn in f.table { InvalidateKeepsWheel(g, f, lpn, flags, 0); }
    AcquireTurns(g, f1, flags);
    var f2 := Acquire(g, f1, flags).value;
    ProgramKeepsWheel(g, f2, f2.active[f2.cursor], lpn, flags, data, 0);
  }
}
