/** Resets while the refill timer runs: which pages they grant too many, and when they grant none. */
module CreditResets {
  import opened CreditMath
  import opened CreditLedger
  import opened CreditInvariant
  import opened CreditRun
  import opened CreditTime

  // ----- phases without an active account -----------------------------------------------------------------------

  predicate Idle(users: Users) {
    forall u :: u in users ==> !users[u].active
  }

  lemma {:induction false} IdleGrants(t: Totals, users: Users, order: seq<nat>)
    requires t.Valid() && AllSound(users) && Lists(order, users) && Idle(users)
    ensures GrantSum(t, users, order) == 0
    decreases |order|
  {
    hide Sound, AfterPhase;
    if order != [] {
      AfterPhaseIsSound(t, users[order[|order| - 1]]);
      IdleGrants(t, users, order[..|order| - 1]);
    }
  }

  lemma IdleBoundary(c: Setup, s: Books)
    requires Inv(c, s) && Idle(s.users)
    ensures Boundary(c, s).ever == s.ever && Idle(Boundary(c, s).users)
  {
    hide Balanced, Within, DeferredOk, Conserved, GrantSum, Sound, AfterPhase, TotalsOf;
    var t := TotalsOf(c.rate, s.users, s.order);
    IdleGrants(t, s.users, s.order);
    forall u | u in s.users
      ensures AfterPhase(t, s.users[u]) == s.users[u]
    {
      AfterPhaseIsSound(t, s.users[u]);
    }
  }

  lemma {:induction false} IdleRefill(c: Setup, s: Books, at: nat)
    requires Inv(c, s) && c.Valid() && Idle(s.users)
    ensures Refill(c, s, at).ever == s.ever
    decreases if s.next <= at then at - s.next + 1 else 0
  {
    hide Inv, Boundary, Idle;
    if s.started && s.next <= at {
      IdleBoundary(c, s);
      IdleRefill(c, Boundary(c, s), at);
    }
  }

  lemma {:induction false} IdleAdmin(c: Setup, s: Books)
    requires c.Valid() && Idle(s.users)
    ensures Idle(DrainAdmin(c, s).users)
    decreases |s.admin|
  {
    if s.admin != [] { IdleAdmin(c, AdminStep(c, s)); }
  }

  /** A tick that finds no active account grants nothing, however many phases it runs. */
  lemma IdleTick(c: Setup, s: Books, now: nat, delay: nat)
    requires Inv(c, s) && Idle(s.users)
    ensures Tick(c, s, now, delay).ever == s.ever
  {
    hide Inv, Tick, DrainAdmin, Refill, Idle;
    InvSetup(c, s);
    TickClock(c, s, now, delay);
    IdleAdmin(c, s);
    IdleRefill(c, DrainAdmin(c, s), RefillTime(s, now, delay));
  }

  /** A tick directly after a reset with the timer running replays every boundary since tick 0, for nobody. */
  lemma ResetReplaysPhases(c: Setup, s: Books, now: nat)
    requires Inv(c, s) && s.started
    ensures Inv(c, Reset(s)) && c.Valid()
    ensures var r := Tick(c, Reset(s), now, 0);
            && r.phases == s.phases + Passed(0, now, c.period) && now < Ticks(Passed(0, now, c.period), c.period)
            && r.ever == s.ever
  {
    hide Tick, Passed, Ticks, Balanced, Conserved, Within, AccountsOk;
    ResetKeeps(c, s);
    TickRunsDuePhases(c, Reset(s), now, 0);
    IdleTick(c, Reset(s), now, 0);
  }

  /** After the first reset that finds the timer running (`live` says whether there was one), no tick finds an
      active account. */
  ghost predicate QuietAfterReset(c: Setup, s: Books, ops: seq<Op>, live: bool)
    requires Inv(c, s) && forall i :: 0 <= i < |ops| ==> ops[i].Valid()
    decreases |ops|
  {
    ops != [] ==>
      && (live && ops[0].TickOp? ==> Idle(s.users))
      && QuietAfterReset(c, Step(c, s, ops[0]), ops[1..], live || (ops[0].ResetOp? && s.started))
  }

  lemma QuietStep(c: Setup, s: Books, op: Op)
    requires Inv(c, s) && op.Valid() && (op.TickOp? ==> Idle(s.users))
    ensures Step(c, s, op).ever == s.ever
  {
    hide Inv, Step, Tick, Idle;
    if op.TickOp? {
      StepTick(c, s, op);
      IdleTick(c, s, op.now, op.delay);
    } else if op.ResetOp? {
      StepReset(c, s);
    } else {
      OtherClock(c, s, op);
    }
  }

  lemma {:induction false} QuietRun(c: Setup, s: Books, ops: seq<Op>)
    requires Inv(c, s) && (forall i :: 0 <= i < |ops| ==> ops[i].Valid()) && QuietAfterReset(c, s, ops, true)
    ensures Run(c, s, ops).ever == s.ever
    decreases |ops|
  {
    hide Inv, Step, Idle;
    if ops != [] {
      QuietStep(c, s, ops[0]);
      QuietRun(c, Step(c, s, ops[0]), ops[1..]);
    }
  }

  lemma EverWithin(c: Setup, s: Books)
    requires Inv(c, s)
    ensures c.Valid() && s.ever as real <= Times(s.phases, c.rate.budget)
  {
    hide Times, Balanced, Conserved, DeferredOk;
    CarryNonNegative(s.users, s.order);
  }

  /** With the timer running and its grid at `start`. */
  lemma {:induction false} QuietRunningGrants(c: Setup, s: Books, ops: seq<Op>, limit: nat, start: int)
    requires Inv(c, s) && (forall i :: 0 <= i < |ops| ==> ops[i].Valid()) && Before(c, s, ops, limit)
    requires s.started && Timely(c, s, limit) && Origin(c, s) == start && QuietAfterReset(c, s, ops, false)
    ensures WithinRate(c, Run(c, s, ops).ever, limit - start)
    decreases |ops|
  {
    hide Inv, Step, Idle, Times, Ticks, WithinRate;
    EverWithin(c, s);
    RateBound(c, s, limit - start);
    if ops != [] {
      var s1 := Step(c, s, ops[0]);
      StepMovesGrid(c, s, ops[0], limit);
      if ops[0].ResetOp? {
        StepReset(c, s);
        QuietRun(c, s1, ops[1..]);
      } else {
        QuietRunningGrants(c, s1, ops[1..], limit, start);
      }
    }
  }

  lemma {:induction false} QuietGrants(c: Setup, s: Books, ops: seq<Op>, limit: nat)
    requires Inv(c, s) && (forall i :: 0 <= i < |ops| ==> ops[i].Valid()) && Before(c, s, ops, limit)
    requires !s.started && Timely(c, s, limit) && QuietAfterReset(c, s, ops, false)
    ensures Run(c, s, ops).started ==> WithinRate(c, Run(c, s, ops).ever, limit - StartTime(c, s, ops))
    decreases |ops|
  {
    hide Inv, Step, Idle, Timely, Origin, WithinRate;
    if ops != [] {
      var s1 := Step(c, s, ops[0]);
      StepMovesGrid(c, s, ops[0], limit);
      if s1.started {
        QuietRunningGrants(c, s1, ops[1..], limit, TimeOf(s, ops[0]));
      } else {
        QuietGrants(c, s1, ops[1..], limit);
      }
    }
  }

  /** Resets do no harm as long as no account is active at a tick after them: pages granted still fit in the
      configured rate over the time since the timer was started. */
  lemma QuietResetsKeepTheRate(c: Setup, ops: seq<Op>, limit: nat)
    requires c.Valid() && (forall i :: 0 <= i < |ops| ==> ops[i].Valid()) && Inv(c, Initial(c))
    requires Before(c, Initial(c), ops, limit) && QuietAfterReset(c, Initial(c), ops, false)
    ensures var s := Run(c, Initial(c), ops);
            s.started ==> WithinRate(c, s.ever, limit - StartTime(c, Initial(c), ops))
  {
    hide Inv, Run, Before, Initial, Timely, StartTime, QuietAfterReset, WithinRate;
    InitialIsTimely(c, limit);
    QuietGrants(c, Initial(c), ops, limit);
  }

  // ----- a run that grants too much -----------------------------------------------------------------------------

  /** One page per tick, one phase per tick, best effort only. */
  const Paced: Setup := Setup(Rate(1.0, 1.0), 1, {})

  /** User 1001 alone is active, with k pages and nothing carried over. */
  ghost predicate Solo(s: Books, k: nat) {
    && s.order == [1001, 1002, 1003] && s.users.Keys == {1001, 1002, 1003}
    && !s.users[1002].active && !s.users[1003].active
    && var a := s.users[1001];
       a.active && !a.slo && a.weight == 1 && a.cap == 2000 && a.credit == k && a.carry == 0.0
  }

  lemma SoloWeights(s: Books, k: nat)
    requires Solo(s, k)
    ensures Lists(s.order, s.users) && WeightSum(s.users, s.order, true) == 0 && WeightSum(s.users, s.order, false) == 1
  {
    var o := s.order;
    assert o[..2] == [1001, 1002] && o[..2][..1] == [1001] && o[..2][..1][..0] == [];
    forall slo: bool
      ensures WeightSum(s.users, [1001], slo) == if slo then 0 else 1
    {
      assert WeightSum(s.users, [1001][..0], slo) == 0;
    }
    assert forall slo :: WeightSum(s.users, [1001, 1002], slo) == WeightSum(s.users, [1001], slo);
    assert forall slo :: WeightSum(s.users, o, slo) == WeightSum(s.users, [1001, 1002], slo);
  }

  lemma SoloAccount(a: Account, k: nat)
    requires Sound(a) && a.active && !a.slo && a.weight == 1 && a.cap == 2000 && a.credit == k < 2000 && a.carry == 0.0
    ensures AfterPhase(Totals(Paced.rate, 0, 1, 0, 1.0), a) == a.(credit := k + 1)
  {
    PartSum(1.0, 0, 1, 1);
    assert Part(1.0, 1, 1) == 1.0;
    assert (1.0 as real).Floor == 1;
  }

  /** One phase gives the active user one page. */
  lemma SoloBoundary(s: Books, k: nat)
    requires Inv(Paced, s) && Solo(s, k) && k < 2000
    ensures Solo(Boundary(Paced, s), k + 1) && Boundary(Paced, s).ever == s.ever + 1
  {
    hide Balanced, Within, DeferredOk, Conserved, Sound, AfterPhase, WeightSum;
    SoloWeights(s, k);
    var t := Totals(Paced.rate, 0, 1, 0, 1.0);
    assert TotalsOf(Paced.rate, s.users, s.order) == t;
    SoloAccount(s.users[1001], k);
    AfterPhaseIsSound(t, s.users[1002]);
    AfterPhaseIsSound(t, s.users[1003]);
    var o := s.order;
    assert o[..2] == [1001, 1002] && [1001, 1002][..1] == [1001] && [1001][..0] == [];
    assert GrantSum(t, s.users, []) == 0;
    assert GrantSum(t, s.users, [1001]) == 1;
    assert GrantSum(t, s.users, [1001, 1002]) == 1;
    assert GrantSum(t, s.users, o) == 1;
  }

  lemma {:induction false} SoloRefill(s: Books, k: nat, at: nat)
    requires Inv(Paced, s) && Solo(s, k) && s.started && s.next <= at + 1 && k + (at + 1 - s.next) <= 2000
    ensures Refill(Paced, s, at).ever == s.ever + (at + 1 - s.next)
    decreases at + 1 - s.next
  {
    hide Inv, Boundary, Solo;
    if s.next <= at {
      SoloBoundary(s, k);
      SoloRefill(Boundary(Paced, s), k + 1, at);
    }
  }

  function Greedy(at: nat): seq<Op> {
    var r := Request(1001, Read, 4096);
    [SubmitOp(r, at), ResetOp, SubmitOp(r, at), TickOp(at, 0)]
  }

  /** Nobody is active, and user 1001 is an ordinary best-effort user. */
  ghost predicate Resting(s: Books) {
    && s.order == [1001, 1002, 1003] && s.users.Keys == {1001, 1002, 1003} && s.admin == [] && s.ever == 0
    && Idle(s.users)
    && var a := s.users[1001]; !a.slo && a.weight == 1 && a.cap == 2000 && a.carry == 0.0
  }

  lemma InitialRests()
    ensures Resting(Initial(Paced)) && !Initial(Paced).started
  {
    assert (1.0 * 2000.0).Floor == 2000;
  }

  /** A submission activates user 1001. */
  lemma SubmitActivates(s: Books, at: nat)
    requires Inv(Paced, s) && Resting(s)
    ensures var r := Step(Paced, s, SubmitOp(Request(1001, Read, 4096), at));
            Solo(r, 0) && r.started && r.admin == [] && r.ever == 0 && (s.started ==> r.next == s.next)
  {
    hide Inv, Registered, AccountsOk, Within, DeferredOk, Conserved, Balanced;
    InvSetup(Paced, s);
  }

  lemma ResetRests(s: Books)
    requires Inv(Paced, s) && Solo(s, 0) && s.ever == 0
    ensures var r := Step(Paced, s, ResetOp); Resting(r) && r.started == s.started && r.next == 0
  {
    hide Registered, AccountsOk, Within, DeferredOk, Conserved, Balanced, Queued, Requests;
  }

  /** With a page per tick: submit, reset, submit and tick, all at tick `at`. No time has passed since the timer was
      started, and at + 1 pages are granted. */
  lemma ResetGrantsPagesInNoTime(at: nat)
    requires at < 2000
    ensures Inv(Paced, Initial(Paced)) && (forall i :: 0 <= i < 4 ==> Greedy(at)[i].Valid())
    ensures var s := Run(Paced, Initial(Paced), Greedy(at));
            && Before(Paced, Initial(Paced), Greedy(at), at)
            && s.started && StartTime(Paced, Initial(Paced), Greedy(at)) == at
            && s.ever == at + 1 && !WithinRate(Paced, s.ever, at - StartTime(Paced, Initial(Paced), Greedy(at)))
  {
    hide Inv, Step, Solo, Resting, Initial, Refill, Tick;
    InitialKeeps(Paced);
    InitialRests();
    var ops := Greedy(at);
    var s0 := Initial(Paced);
    var s1 := Step(Paced, s0, ops[0]);
    SubmitActivates(s0, at);
    var s2 := Step(Paced, s1, ops[1]);
    ResetRests(s1);
    var s3 := Step(Paced, s2, ops[2]);
    SubmitActivates(s2, at);
    var s4 := Step(Paced, s3, ops[3]);
    assert ops[1..][1..] == ops[2..] && ops[2..][1..] == ops[3..] && ops[3..][1..] == [];
    StepTick(Paced, s3, ops[3]);
    TickClock(Paced, s3, at, 0);
    TickKeepsTimer(Paced, s3, at, 0);
    SoloRefill(s3, 0, at);
    assert Run(Paced, s3, ops[3..]) == Run(Paced, s4, []) == s4;
    assert Run(Paced, s2, ops[2..]) == s4;
    assert Run(Paced, s1, ops[1..]) == s4;
    assert Run(Paced, s0, ops) == s4;
    assert Before(Paced, s4, [], at);
    assert Before(Paced, s3, ops[3..], at);
    assert Before(Paced, s2, ops[2..], at);
    assert Before(Paced, s1, ops[1..], at);
  }
}
