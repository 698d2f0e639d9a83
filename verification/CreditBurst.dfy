/** What the cap of a best-effort account does not limit: the account keeps its share as carry when its credit is at
    the cap, without bound, and gets it back later, a full cap in every phase. */
module CreditBurst {
  import opened CreditMath
  import opened CreditLedger
  import opened CreditInvariant
  import opened CreditRun
  import opened CreditTime

  /** The timer runs, nothing waits anywhere, and best-effort user u alone is active. */
  ghost predicate Alone(s: Books, u: nat) {
    && s.started && s.admin == [] && s.deferred == [] && s.callbacks == [] && s.isc == []
    && u in s.users && s.users[u].active && !s.users[u].slo && s.users[u].weight == 1
    && forall v :: v in s.users ==>
         s.users[v].queue == [] && s.users[v].queueIsc == [] && (v != u ==> !s.users[v].active)
  }

  /** Credit and carry of a user. */
  function Wealth(s: Books, u: nat): real
    requires u in s.users
  {
    s.users[u].credit as real + s.users[u].carry
  }

  lemma {:induction false} SoloWeights(s: Books, order: seq<nat>, u: nat, slo: bool)
    requires Alone(s, u) && Lists(order, s.users) && forall i, j :: 0 <= i < j < |order| ==> order[i] != order[j]
    ensures WeightSum(s.users, order, slo) == if !slo && u in order then 1 else 0
    decreases |order|
  {
    if order != [] {
      var n := |order| - 1;
      SoloWeights(s, order[..n], u, slo);
      assert order == order[..n] + [order[n]];
    }
  }

  lemma {:induction false} SoloGrants(t: Totals, s: Books, order: seq<nat>, u: nat)
    requires t.Valid() && AllSound(s.users) && Alone(s, u) && Lists(order, s.users)
    requires forall i, j :: 0 <= i < j < |order| ==> order[i] != order[j]
    ensures s.users[u].credit <= AfterPhase(t, s.users[u]).credit
    ensures GrantSum(t, s.users, order) ==
            if u in order then AfterPhase(t, s.users[u]).credit - s.users[u].credit else 0
    decreases |order|
  {
    hide AfterPhase, Sound;
    AfterPhaseIsSound(t, s.users[u]);
    if order != [] {
      var n := |order| - 1;
      SoloGrants(t, s, order[..n], u);
      AfterPhaseIsSound(t, s.users[order[n]]);
      assert order == order[..n] + [order[n]];
    }
  }

  /** The phase that an only user gets. */
  function SoloTotals(r: Rate): (t: Totals)
    requires r.Valid()
    ensures t.Valid()
  {
    Totals(r, 0, 1, 0, r.budget)
  }

  lemma TotalsAre(c: Setup, s: Books, u: nat)
    requires Inv(c, s) && Alone(s, u)
    ensures AllSound(s.users) && Lists(s.order, s.users) && TotalsOf(c.rate, s.users, s.order) == SoloTotals(c.rate)
  {
    hide Balanced, Within, DeferredOk, Conserved, WeightSum, Sound;
    SoloWeights(s, s.order, u, true);
    SoloWeights(s, s.order, u, false);
  }

  /** Everything the account has and gets is credit up to the cap, the rest is carried. */
  lemma SoloAccount(r: Rate, a: Account)
    requires r.Valid() && 0.0 < r.budget && Sound(a) && IsBestEffort(a) && a.weight == 1
    ensures var b := AfterPhase(SoloTotals(r), a);
            var all := a.credit as real + a.carry + r.budget;
            && b.credit as real + b.carry == all
            && b.credit == Min(all.Floor, a.cap)
  {
    PartSum(r.budget, 0, 1, 1);
    var due := r.budget + a.carry;
    assert Due(a, r.budget, 1) == due;
    assert (a.credit as real + due).Floor == a.credit + due.Floor;
  }

  lemma SoloBoundary(c: Setup, s: Books, u: nat)
    requires Inv(c, s) && Alone(s, u) && 0.0 < c.rate.budget
    ensures var r := Boundary(c, s);
            && Alone(r, u) && c.Valid()
            && Wealth(r, u) == Wealth(s, u) + c.rate.budget
            && r.users[u].credit == Min(Wealth(r, u).Floor, c.rate.Cap())
            && r.ever == s.ever + r.users[u].credit - s.users[u].credit
  {
    hide Balanced, Within, DeferredOk, Conserved, AfterPhase, WeightSum, TotalsOf, SoloTotals, Sound, GrantSum;
    var t := SoloTotals(c.rate);
    TotalsAre(c, s, u);
    forall v | v in s.users
      ensures var b := AfterPhase(t, s.users[v]); b == s.users[v].(credit := b.credit, carry := b.carry)
    {
      AfterPhaseIsSound(t, s.users[v]);
    }
    SoloGrants(t, s, s.order, u);
    SoloAccount(c.rate, s.users[u]);
  }

  /** What a phase leaves to carry is less than a page exactly if the whole pages due fit below the cap. */
  lemma CarryIsFractionIff(t: Totals, a: Account)
    requires t.Valid() && Sound(a) && IsBestEffort(a) && 0.0 < t.spill && 0 < t.restWeight
    ensures AfterPhase(t, a).carry < 1.0 <==> Due(a, t.spill, t.restWeight).Floor <= Headroom(a)
  {
    hide Part;
    var due := Due(a, t.spill, t.restWeight);
    assert due - 1.0 < due.Floor as real <= due;
  }

  // ----- a tick ------------------------------------------------------------------------------------------------

  lemma {:induction false} NothingToScan(s: Books, isc: bool, i: nat, left: nat)
    requires Lists(s.order, s.users) && forall v :: v in s.users ==> s.users[v].queue == [] && s.users[v].queueIsc == []
    ensures Scan(s, isc, i, left) == (s, false)
    decreases left
  {
    if left != 0 && s.order != [] {
      NothingToScan(s, isc, (if i >= |s.order| then 0 else i) + 1, left - 1);
    }
  }

  lemma NothingToServe(c: Setup, s: Books, u: nat, n: nat)
    requires Inv(c, s) && Alone(s, u)
    ensures Rounds(c, s, n) == s
  {
    hide Inv, Scan, After;
    InvLists(c, s);
    NothingToScan(s, true, After(s.order, s.lastIsc, 0), |s.order|);
    NothingToScan(s, false, After(s.order, s.lastHost, 0), |s.order|);
  }

  /** A tick at the next boundary is one phase and nothing else. */
  lemma SoloTick(c: Setup, s: Books, u: nat)
    requires Inv(c, s) && Alone(s, u) && 0.0 < c.rate.budget
    ensures Tick(c, s, s.next, 0) == Boundary(c, s)
  {
    hide Inv, Boundary, Rounds, Wealth;
    InvSetup(c, s);
    SoloBoundary(c, s, u);
    var r := Boundary(c, s);
    assert Refill(c, r, s.next) == r;
    assert Refill(c, s, s.next) == r;
    assert Resume(r, 0) == r && RunCallbacks(c, r, 0) == r && RunIsc(c, r, 0) == r;
    NothingToServe(c, r, u, MaxDispatchPerTick);
  }

  // ----- an idle user ------------------------------------------------------------------------------------------

  lemma {:induction false} RunSnoc(c: Setup, s: Books, ops: seq<Op>, op: Op)
    requires Inv(c, s) && (forall i :: 0 <= i < |ops| ==> ops[i].Valid()) && op.Valid()
    ensures Run(c, s, ops + [op]) == Step(c, Run(c, s, ops), op)
    decreases |ops|
  {
    hide Inv, Step;
    if ops == [] {
      assert ([] + [op])[1..] == [];
      assert Run(c, Step(c, s, op), []) == Step(c, s, op);
    } else {
      assert (ops + [op])[1..] == ops[1..] + [op];
      RunSnoc(c, Step(c, s, ops[0]), ops[1..], op);
    }
  }

  /** User u is activated by free in-storage work at tick 0; then n phases pass, with a tick at each boundary. */
  function IdleOps(c: Setup, u: nat, n: nat): (ops: seq<Op>)
    ensures forall i :: 0 <= i < |ops| ==> ops[i].Valid()
  {
    if n == 0 then [IscOp(Work(u, 0, 0), 0)] else IdleOps(c, u, n - 1) + [TickOp(Ticks(n, c.period), 0)]
  }

  /** The state after n phases: u has this much, and the next phase is due at the next boundary. */
  ghost predicate Stands(c: Setup, s: Books, u: nat, n: nat, wealth: real) {
    && Alone(s, u) && s.phases == n && s.next == Ticks(n + 1, c.period) && Wealth(s, u) == wealth
  }

  /** Nobody has ever done anything. */
  ghost predicate Untouched(c: Setup, s: Books)
    requires c.Valid()
  {
    && !s.started && s.admin == [] && s.deferred == [] && s.callbacks == [] && s.isc == []
    && s.phases == 0 && s.ever == 0
    && forall v :: v in s.users ==> s.users[v] == NewAccount(c, v)
  }

  lemma EnrollUntouched(c: Setup, s: Books, u: nat)
    requires c.Valid() && Untouched(c, s)
    ensures Untouched(c, Enroll(c, s, u))
  {
  }

  lemma InitialUntouched(c: Setup)
    requires c.Valid()
    ensures Untouched(c, Initial(c))
  {
    assert Untouched(c, Blank);
    hide Untouched, Enroll;
    EnrollUntouched(c, Blank, 1001);
    EnrollUntouched(c, Enroll(c, Blank, 1001), 1002);
    EnrollUntouched(c, Enroll(c, Enroll(c, Blank, 1001), 1002), 1003);
  }

  lemma FirstWork(c: Setup, s: Books, u: nat)
    requires c.Valid() && u !in c.slo && Untouched(c, s) && u in s.users
    ensures var r := SubmitIsc(c, s, Work(u, 0, 0), 0); Stands(c, r, u, 0, 0.0) && r.users[u].credit == 0
  {
    hide Ticks;
    TicksAdd(0, 1, c.period);
  }

  lemma FirstWorkEnrolls(c: Setup, s: Books, u: nat)
    requires c.Valid()
    ensures SubmitIsc(c, s, Work(u, 0, 0), 0) == SubmitIsc(c, Enroll(c, s, u), Work(u, 0, 0), 0)
  {
    assert Enroll(c, Enroll(c, s, u), u) == Enroll(c, s, u);
    assert Enroll(c, s, u).tasks == s.tasks;
  }

  lemma Started(c: Setup, u: nat)
    requires c.Valid() && u !in c.slo && Inv(c, Initial(c))
    ensures var s := Step(c, Initial(c), IscOp(Work(u, 0, 0), 0));
            Stands(c, s, u, 0, 0.0) && s.users[u].credit == 0
  {
    hide Inv, SubmitIsc, Enroll, Untouched, Stands, Initial;
    InitialUntouched(c);
    EnrollUntouched(c, Initial(c), u);
    FirstWork(c, Enroll(c, Initial(c), u), u);
    FirstWorkEnrolls(c, Initial(c), u);
  }

  lemma StandsTick(c: Setup, s: Books, u: nat, n: nat, wealth: real)
    requires Inv(c, s) && c.Valid() && 0.0 < c.rate.budget && Stands(c, s, u, n, wealth)
    ensures var r := Step(c, s, TickOp(Ticks(n + 1, c.period), 0));
            && Stands(c, r, u, n + 1, wealth + c.rate.budget)
            && r.users[u].credit == Min(Wealth(r, u).Floor, c.rate.Cap())
            && r.ever == s.ever + r.users[u].credit - s.users[u].credit
  {
    hide Inv, Step, Tick, Boundary, Ticks, Alone, Wealth;
    StepTick(c, s, TickOp(Ticks(n + 1, c.period), 0));
    SoloTick(c, s, u);
    SoloBoundary(c, s, u);
    SoloUser(s, u);
    TicksAdd(n + 1, 1, c.period);
  }

  lemma SoloUser(s: Books, u: nat)
    requires Alone(s, u)
    ensures u in s.users
  {
  }

  /** An account that is active and idle for n phases owns the budgets of all of them. Its credit stops at the cap,
      but the rest is carried: no bound on it holds for every n. */
  lemma {:induction false} CarryOutgrowsCap(c: Setup, u: nat, n: nat)
    requires c.Valid() && u !in c.slo && 0.0 < c.rate.budget && Inv(c, Initial(c))
    ensures var s := Run(c, Initial(c), IdleOps(c, u, n));
            && Stands(c, s, u, n, Times(n, c.rate.budget))
            && s.users[u].credit == Min(Times(n, c.rate.budget).Floor, c.rate.Cap())
            && s.users[u].carry == Times(n, c.rate.budget) - s.users[u].credit as real
    decreases n
  {
    hide Inv, Step, Ticks, Times, Initial;
    var b := c.rate.budget;
    if n == 0 {
      Started(c, u);
      NoPhases(b);
      var s1 := Step(c, Initial(c), IscOp(Work(u, 0, 0), 0));
      assert Run(c, s1, []) == s1;
    } else {
      CarryOutgrowsCap(c, u, n - 1);
      var ops := IdleOps(c, u, n - 1);
      RunSnoc(c, Initial(c), ops, TickOp(Ticks(n, c.period), 0));
      StandsTick(c, Run(c, Initial(c), ops), u, n - 1, Times(n - 1, b));
      BudgetGrows(c.rate, n - 1);
    }
  }

  // ----- a burst -----------------------------------------------------------------------------------------------

  /** k phases, in each of which u spends its whole credit first. */
  function BurstOps(c: Setup, u: nat, n: nat, k: nat): (ops: seq<Op>)
    requires c.Valid()
    ensures forall i :: 0 <= i < |ops| ==> ops[i].Valid()
  {
    if k == 0 then IdleOps(c, u, n)
    else BurstOps(c, u, n, k - 1) + [TakeOp(u, c.rate.Cap(), Unclassified)] + [TickOp(Ticks(n + k, c.period), 0)]
  }

  lemma StandsTake(c: Setup, s: Books, u: nat, n: nat, wealth: real)
    requires Inv(c, s) && c.Valid() && Stands(c, s, u, n, wealth) && s.users[u].credit == c.rate.Cap()
    ensures var r := Step(c, s, TakeOp(u, c.rate.Cap(), Unclassified));
            Stands(c, r, u, n, wealth - c.rate.Cap() as real) && r.users[u].credit == 0 && r.ever == s.ever
  {
    hide Inv, Ticks;
  }

  /** Spend everything, then get a full cap again. */
  lemma BurstStep(c: Setup, s: Books, u: nat, n: nat, wealth: real)
    requires Inv(c, s) && c.Valid() && 0.0 < c.rate.budget && Stands(c, s, u, n, wealth)
    requires s.users[u].credit == c.rate.Cap() && 2.0 * c.rate.Cap() as real <= wealth + c.rate.budget
    ensures var r := Step(c, Step(c, s, TakeOp(u, c.rate.Cap(), Unclassified)), TickOp(Ticks(n + 1, c.period), 0));
            && Stands(c, r, u, n + 1, wealth - c.rate.Cap() as real + c.rate.budget)
            && r.users[u].credit == c.rate.Cap() && r.ever == s.ever + c.rate.Cap()
  {
    hide Inv, Step, Ticks, Alone;
    StandsTake(c, s, u, n, wealth);
    StandsTick(c, Step(c, s, TakeOp(u, c.rate.Cap(), Unclassified)), u, n, wealth - c.rate.Cap() as real);
  }

  /** Whoever saved enough by being idle gets a full cap in each of k phases in a row, although the budget of a phase
      may be a two-thousandth of that. */
  lemma {:induction false} BurstOfCaps(c: Setup, u: nat, n: nat, k: nat)
    requires c.Valid() && u !in c.slo && 0.0 < c.rate.budget && Inv(c, Initial(c))
    requires Times(k + 1, c.rate.Cap() as real) <= Times(n, c.rate.budget)
    ensures var s := Run(c, Initial(c), IdleOps(c, u, n));
            var r := Run(c, Initial(c), BurstOps(c, u, n, k));
            && r.phases == s.phases + k
            && r.ever == s.ever + k * c.rate.Cap()
            && Stands(c, r, u, n + k, Remainder(c, n, k)) && r.users[u].credit == c.rate.Cap()
    decreases k
  {
    hide Inv, Step, Ticks, Initial, IdleOps, Run, Times, Remainder;
    CarryOutgrowsCap(c, u, n);
    LeftBounds(c, n, k);
    if k > 0 {
      BurstOfCaps(c, u, n, k - 1);
      var ops := BurstOps(c, u, n, k - 1);
      var take, tick := TakeOp(u, c.rate.Cap(), Unclassified), TickOp(Ticks(n + k, c.period), 0);
      RunSnoc(c, Initial(c), ops, take);
      RunSnoc(c, Initial(c), ops + [take], tick);
      BurstStep(c, Run(c, Initial(c), ops), u, n + k - 1, Remainder(c, n, k - 1));
      Distributes(k - 1, c.rate.Cap());
    }
  }

  lemma Distributes(k: nat, cap: nat)
    ensures (k + 1) * cap == k * cap + cap
  {
  }

  /** What the user owns after n idle phases and k caps spent. */
  function Remainder(c: Setup, n: nat, k: nat): real
    requires c.Valid()
  {
    Times(n + k, c.rate.budget) - Times(k, c.rate.Cap() as real)
  }

  lemma LeftBounds(c: Setup, n: nat, k: nat)
    requires c.Valid() && 0.0 < c.rate.budget && Times(k + 1, c.rate.Cap() as real) <= Times(n, c.rate.budget)
    ensures Remainder(c, n, 0) == Times(n, c.rate.budget)
    ensures k == 0 ==> Min(Times(n, c.rate.budget).Floor, c.rate.Cap()) == c.rate.Cap()
    ensures k > 0 ==>
      && Remainder(c, n, k) == Remainder(c, n, k - 1) - c.rate.Cap() as real + c.rate.budget
      && 2.0 * c.rate.Cap() as real <= Remainder(c, n, k - 1) + c.rate.budget
      && Times(k, c.rate.Cap() as real) <= Times(n, c.rate.budget)
  {
    var x, b := c.rate.Cap() as real, c.rate.budget;
    hide Times;
    TimesOne(x);
    TimesSum(k, 1, x);
    if k > 0 {
      TimesSum(k - 1, 1, x);
      TimesSum(n, k - 1, b);
      BudgetGrows(c.rate, n + k - 1);
    }
  }

  lemma TimesOne(x: real)
    ensures Times(1, x) == x && Times(0, x) == 0.0
  {
  }
}
