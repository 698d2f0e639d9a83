/** Grants in any window of a run, not only since the start: what a phase may hand out, and what was carried into
    the window. Also under callbacks that re-enter the scheduler. */
module CreditWindow {
  import opened CreditMath
  import opened CreditLedger
  import opened CreditInvariant
  import opened CreditRun
  import opened CreditTime
  import opened CreditReentry

  /** Pages granted and fractions carried, less the budgets of the phases run. */
  function Funds(c: Setup, s: Books): real
    requires Lists(s.order, s.users)
  {
    s.ever as real + CarrySum(s.users, s.order) - Times(s.phases, c.rate.budget)
  }

  /** Accounts keep what they carry, and new ones carry nothing. */
  ghost predicate SameCarries(s: Books, r: Books) {
    && s.phases == r.phases && s.ever == r.ever
    && |s.order| <= |r.order| && r.order[..|s.order|] == s.order && Lists(s.order, s.users) && Lists(r.order, r.users)
    && (forall u :: u in s.users ==>
          u in r.users && r.users[u].slo == s.users[u].slo && r.users[u].carry == s.users[u].carry)
    && forall i :: |s.order| <= i < |r.order| ==> r.users[r.order[i]].carry == 0.0
  }

  lemma {:induction false} CarriesAgree(users: Users, users': Users, order: seq<nat>)
    requires Lists(order, users) && Lists(order, users')
    requires forall u :: u in order ==> users'[u].slo == users[u].slo && users'[u].carry == users[u].carry
    ensures CarrySum(users', order) == CarrySum(users, order)
    decreases |order|
  {
    if order != [] { CarriesAgree(users, users', order[..|order| - 1]); }
  }

  lemma {:induction false} NewcomersCarryNothing(users: Users, order: seq<nat>, n: nat)
    requires Lists(order, users) && n <= |order|
    requires forall i :: n <= i < |order| ==> users[order[i]].carry == 0.0
    ensures CarrySum(users, order) == CarrySum(users, order[..n])
    decreases |order|
  {
    if n < |order| {
      var rest := order[..|order| - 1];
      assert rest[..n] == order[..n];
      NewcomersCarryNothing(users, rest, n);
    } else {
      assert order[..n] == order;
    }
  }

  lemma SameCarriesSameFunds(c: Setup, s: Books, r: Books)
    requires SameCarries(s, r)
    ensures Funds(c, r) == Funds(c, s)
  {
    hide CarrySum, Times;
    NewcomersCarryNothing(r.users, r.order, |s.order|);
    CarriesAgree(s.users, r.users, s.order);
  }

  lemma PhaseFunds(c: Setup, s: Books)
    requires Inv(c, s)
    ensures var r := Boundary(c, s); Lists(s.order, s.users) && Lists(r.order, r.users) && Funds(c, r) <= Funds(c, s)
  {
    hide CarrySum, Times, GrantSum, TotalsOf, AfterPhase, Balanced, Within, Conserved, DeferredOk, Sound;
    PhaseWithinBudget(c.rate, s.users, s.order);
    BudgetGrows(c.rate, s.phases);
  }

  // ----- steps that leave all carries alone ---------------------------------------------------------------------

  lemma SameCarriesTrans(s0: Books, s1: Books, s2: Books)
    requires SameCarries(s0, s1) && SameCarries(s1, s2)
    ensures SameCarries(s0, s2)
  {
    assert s2.order[..|s0.order|] == s2.order[..|s1.order|][..|s0.order|];
    forall i | |s0.order| <= i < |s2.order|
      ensures s2.users[s2.order[i]].carry == 0.0
    {
      if i < |s1.order| { assert s2.order[i] == s1.order[i]; }
    }
  }

  lemma EnrollCarries(c: Setup, s: Books, u: nat)
    requires c.Valid() && Lists(s.order, s.users)
    ensures SameCarries(s, Enroll(c, s, u)) && Lists(Enroll(c, s, u).order, Enroll(c, s, u).users)
  {
  }

  /** One account changes, but not what it carries. */
  lemma PutCarries(s: Books, r: Books, u: nat)
    requires Lists(s.order, s.users) && u in s.users && u in r.users && r.users == s.users[u := r.users[u]]
    requires r.users[u].slo == s.users[u].slo && r.users[u].carry == s.users[u].carry
    requires r.order == s.order && r.ever == s.ever && r.phases == s.phases
    ensures SameCarries(s, r)
  {
  }

  lemma SameAccounts(s: Books, r: Books)
    requires Lists(s.order, s.users) && r.users == s.users && r.order == s.order
    requires r.ever == s.ever && r.phases == s.phases
    ensures SameCarries(s, r)
  {
  }

  lemma AdminCarries(c: Setup, s: Books)
    requires c.Valid() && Lists(s.order, s.users) && s.admin != []
    ensures SameCarries(s, AdminStep(c, s))
  {
    hide Enroll, SameCarries;
    var r := s.admin[0];
    var s1 := s.(admin := s.admin[1..], log := s.log + [Admin(r)]);
    SameAccounts(s, s1);
    EnrollCarries(c, s1, r.uid);
    SameCarriesTrans(s, s1, Enroll(c, s1, r.uid));
  }

  lemma ResumeCarries(s: Books)
    requires Lists(s.order, s.users) && s.deferred != []
    ensures SameCarries(s, ResumeStep(s))
  {
    hide SameCarries;
    var r, u := ResumeStep(s), s.deferred[0].req.uid;
    if u in s.users { PutCarries(s, r, u); } else { SameAccounts(s, r); }
  }

  lemma CallbackCarries(c: Setup, s: Books)
    requires c.Valid() && Lists(s.order, s.users) && s.callbacks != []
    ensures SameCarries(s, CallbackStep(c, s))
  {
    hide Enroll, SameCarries;
    var u := s.callbacks[0].uid;
    EnrollCarries(c, s, u);
    PutCarries(Enroll(c, s, u), CallbackStep(c, s), u);
    SameCarriesTrans(s, Enroll(c, s, u), CallbackStep(c, s));
  }

  lemma IscCarries(c: Setup, s: Books)
    requires c.Valid() && Lists(s.order, s.users) && s.isc != []
    ensures SameCarries(s, IscStep(c, s))
  {
    hide Enroll, SameCarries;
    var u := s.isc[0].uid;
    EnrollCarries(c, s, u);
    PutCarries(Enroll(c, s, u), IscStep(c, s), u);
    SameCarriesTrans(s, Enroll(c, s, u), IscStep(c, s));
  }

  lemma HeadCarries(s: Books, u: nat, isc: bool)
    requires Lists(s.order, s.users) && u in s.users
    ensures SameCarries(s, TryHead(s, u, isc).0)
  {
    hide SameCarries, Pages, PurposeOf;
    PutCarries(s, TryHead(s, u, isc).0, u);
  }

  /** Every small step but a refill. */
  lemma SmallStepCarries(c: Setup, s: Books, m: Micro)
    requires Inv(c, s) && !m.Whole? && !m.RefillOne?
    ensures SameCarries(s, MicroStep(c, s, m))
  {
    hide Inv, SameCarries, AdminStep, ResumeStep, CallbackStep, IscStep, TryHead;
    InvLists(c, s);
    SameAccounts(s, s);
    match m
    case AdminOne => if s.admin != [] { AdminCarries(c, s); }
    case ResumeOne => if s.deferred != [] { ResumeCarries(s); }
    case CallbackOne => if s.callbacks != [] { CallbackCarries(c, s); }
    case IscOne => if s.isc != [] { IscCarries(c, s); }
    case HeadOne(u, isc) => if u in s.users { HeadCarries(s, u, isc); }
  }

  lemma SmallStepFunds(c: Setup, s: Books, m: Micro)
    requires Inv(c, s) && !m.Whole?
    ensures var r := MicroStep(c, s, m);
            Lists(s.order, s.users) && Lists(r.order, r.users) && Funds(c, r) <= Funds(c, s)
  {
    hide Inv, MicroStep, Funds, Boundary;
    if m.RefillOne? {
      PhaseFunds(c, s);
      RefillStep(c, s);
    } else {
      SmallStepCarries(c, s, m);
      SameCarriesSameFunds(c, s, MicroStep(c, s, m));
    }
  }

  lemma RefillStep(c: Setup, s: Books)
    requires Inv(c, s)
    ensures MicroStep(c, s, RefillOne) == Boundary(c, s)
  {
    hide Inv, Boundary;
  }

  lemma {:induction false} SmallRunFunds(c: Setup, s: Books, ms: seq<Micro>)
    requires Inv(c, s) && AllSmall(ms) && AllValid(ms)
    ensures var r := MicroRun(c, s, ms);
            Lists(s.order, s.users) && Lists(r.order, r.users) && Funds(c, r) <= Funds(c, s)
    decreases |ms|
  {
    hide Inv, MicroStep, Funds;
    InvLists(c, s);
    if ms != [] {
      SmallStepFunds(c, s, ms[0]);
      SmallRunFunds(c, MicroStep(c, s, ms[0]), ms[1..]);
    }
  }

  /** A tick is a run of small steps. */
  lemma TickFunds(c: Setup, s: Books, now: nat, delay: nat)
    requires Inv(c, s)
    ensures var r := Tick(c, s, now, delay);
            Lists(s.order, s.users) && Lists(r.order, r.users) && Funds(c, r) <= Funds(c, s)
  {
    hide Inv, Tick, Funds, MicroRun;
    TickReaches(c, s, now, delay);
    var ms :| AllSmall(ms) && AllValid(ms) && MicroRun(c, s, ms) == Tick(c, s, now, delay);
    SmallRunFunds(c, s, ms);
  }

  /** A reset drops what is carried. */
  lemma ResetFunds(c: Setup, s: Books)
    requires Inv(c, s)
    ensures var r := Step(c, s, ResetOp);
            Lists(s.order, s.users) && Lists(r.order, r.users) && Funds(c, r) <= Funds(c, s)
  {
    hide CarrySum, Queued, Requests, Balanced, Conserved, Times, Sound, AccountOk, Within, DeferredOk;
    ResetAccounts(c, s);
    ClearedCarry(Reset(s).users, s.order);
    CarryNonNegative(s.users, s.order);
  }

  lemma ActivateCarries(c: Setup, s: Books, u: nat, now: nat)
    requires c.Valid() && Lists(s.order, s.users) && u in s.users
    ensures SameCarries(s, Activate(c, s, u, now))
  {
    hide SameCarries;
    PutCarries(s, Activate(c, s, u, now), u);
  }

  lemma SubmitCarries(c: Setup, s: Books, r: Request, now: nat)
    requires c.Valid() && Lists(s.order, s.users)
    ensures SameCarries(s, Submit(c, s, r, now))
  {
    hide SameCarries, Enroll, Activate, IsGate;
    if r.uid == 0 {
      SameAccounts(s, Submit(c, s, r, now));
    } else {
      var s1 := Enroll(c, s, r.uid);
      EnrollCarries(c, s, r.uid);
      var a := s1.users[r.uid];
      var b := if IsGate(r) then a.(gates := a.gates + (if r.op == CreditOnly then 1 else 0),
          queueIsc := [r] + a.queueIsc)
               else a.(queue := a.queue + [r]);
      var s2 := Put(s1, r.uid, b).(submitted := s.submitted + multiset{r});
      PutCarries(s1, s2, r.uid);
      ActivateCarries(c, s2, r.uid, now);
      SameCarriesTrans(s, s1, s2);
      SameCarriesTrans(s, s2, Submit(c, s, r, now));
    }
  }

  lemma SubmitIscCarries(c: Setup, s: Books, w: Work, now: nat)
    requires c.Valid() && Lists(s.order, s.users)
    ensures SameCarries(s, SubmitIsc(c, s, w, now))
  {
    var s1 := Enroll(c, s, w.uid);
    EnrollCarries(c, s, w.uid);
    hide SameCarries, Enroll;
    PutCarries(s1, SubmitIsc(c, s, w, now), w.uid);
    SameCarriesTrans(s, s1, SubmitIsc(c, s, w, now));
  }

  lemma TakeCarries(c: Setup, s: Books, u: nat, used: nat, why: Purpose)
    requires c.Valid() && Lists(s.order, s.users)
    ensures SameCarries(s, Take(c, s, u, used, why))
  {
    var s1 := Enroll(c, s, u);
    EnrollCarries(c, s, u);
    hide SameCarries, Enroll;
    PutCarries(s1, Take(c, s, u, used, why), u);
    SameCarriesTrans(s, s1, Take(c, s, u, used, why));
  }

  lemma TargetCarries(c: Setup, s: Books, u: nat, target: Target)
    requires c.Valid() && Lists(s.order, s.users)
    ensures SameCarries(s, SetTarget(c, s, u, target))
  {
    var s1 := Enroll(c, s, u);
    EnrollCarries(c, s, u);
    hide SameCarries, Enroll;
    PutCarries(s1, SetTarget(c, s, u, target), u);
    SameCarriesTrans(s, s1, SetTarget(c, s, u, target));
  }

  lemma OtherCarries(c: Setup, s: Books, op: Op)
    requires Inv(c, s) && op.Valid() && !op.ResetOp? && !op.TickOp?
    ensures SameCarries(s, Step(c, s, op))
  {
    hide Inv, SameCarries, Submit, SubmitIsc, Take, SetTarget;
    InvLists(c, s);
    match op
    case SubmitOp(r, now) => SubmitCarries(c, s, r, now);
    case CallbackOp(w) => SameAccounts(s, SubmitCallback(s, w));
    case IscOp(w, now) => SubmitIscCarries(c, s, w, now);
    case TakeOp(u, used, why) => TakeCarries(c, s, u, used, why);
    case TargetOp(u, target) => TargetCarries(c, s, u, target);
  }

  lemma StepFunds(c: Setup, s: Books, op: Op)
    requires Inv(c, s) && op.Valid()
    ensures var r := Step(c, s, op);
            Lists(s.order, s.users) && Lists(r.order, r.users) && Funds(c, r) <= Funds(c, s)
  {
    hide Inv, Step, Tick, Funds;
    if op.TickOp? {
      StepTick(c, s, op);
      TickFunds(c, s, op.now, op.delay);
    } else if op.ResetOp? {
      ResetFunds(c, s);
    } else {
      OtherCarries(c, s, op);
      SameCarriesSameFunds(c, s, Step(c, s, op));
    }
  }

  lemma WholeStep(c: Setup, s: Books, op: Op)
    requires Inv(c, s) && op.Valid()
    ensures MicroStep(c, s, Whole(op)) == Step(c, s, op)
  {
    hide Inv, Step;
  }

  lemma {:induction false} MicroRunFunds(c: Setup, s: Books, ms: seq<Micro>)
    requires Inv(c, s) && AllValid(ms)
    ensures var r := MicroRun(c, s, ms);
            Lists(s.order, s.users) && Lists(r.order, r.users) && Funds(c, r) <= Funds(c, s)
    decreases |ms|
  {
    hide Inv, MicroStep, Step, Funds;
    InvLists(c, s);
    if ms != [] {
      if ms[0].Whole? {
        StepFunds(c, s, ms[0].op);
        WholeStep(c, s, ms[0].op);
      } else {
        SmallStepFunds(c, s, ms[0]);
      }
      MicroRunFunds(c, MicroStep(c, s, ms[0]), ms[1..]);
    }
  }

  // ----- windows ----------------------------------------------------------------------------------------------

  /** From any state the books allow, whatever happens next, callbacks inside ticks included: the pages granted from
      there on fit in the budgets of the phases run from there on, plus what was carried into the window. */
  lemma WindowGrants(c: Setup, s: Books, ms: seq<Micro>)
    requires Inv(c, s) && AllValid(ms)
    ensures var r := MicroRun(c, s, ms);
            && Lists(s.order, s.users)
            && (r.ever - s.ever) as real <=
               Product(r.phases - s.phases, c.rate.budget) + CarrySum(s.users, s.order)
  {
    hide Inv, CarrySum, MicroRun, Times, Product;
    MicroRunFunds(c, s, ms);
    var r := MicroRun(c, s, ms);
    InvSums(c, r);
    CarryNonNegative(r.users, r.order);
    TimesDifference(r.phases, s.phases, c.rate.budget);
  }

  function Product(n: int, x: real): real {
    n as real * x
  }

  lemma TimesDifference(m: nat, n: nat, x: real)
    ensures Times(m, x) - Times(n, x) == Product(m - n, x)
  {
  }

  lemma InvSums(c: Setup, s: Books)
    requires Inv(c, s)
    ensures AllSound(s.users) && Lists(s.order, s.users)
  {
  }

  lemma {:induction false} RunIsMicroRun(c: Setup, s: Books, ops: seq<Op>)
    requires Inv(c, s) && forall i :: 0 <= i < |ops| ==> ops[i].Valid()
    ensures AllValid(Wholes(ops)) && MicroRun(c, s, Wholes(ops)) == Run(c, s, ops)
    decreases |ops|
  {
    hide Inv, MicroStep, Step;
    if ops != [] {
      assert Wholes(ops)[1..] == Wholes(ops[1..]);
      WholeStep(c, s, ops[0]);
      RunIsMicroRun(c, Step(c, s, ops[0]), ops[1..]);
    }
  }

  function Wholes(ops: seq<Op>): seq<Micro> {
    seq(|ops|, i requires 0 <= i < |ops| => Whole(ops[i]))
  }

  /** In time: with the timer running at s and no reset in the window, the pages granted up to `limit` fit in the rate
      over the time since one period before the next boundary of s, plus what s carries. */
  lemma WindowRate(c: Setup, s: Books, ops: seq<Op>, limit: nat)
    requires Inv(c, s) && (forall i :: 0 <= i < |ops| ==> ops[i].Valid()) && Before(c, s, ops, limit)
    requires s.started && Timely(c, s, limit) && !ResetWhileRunning(c, s, ops)
    ensures var r := Run(c, s, ops);
            && Lists(s.order, s.users)
            && (r.ever - s.ever) as real * c.period as real <=
               c.rate.budget * (limit - s.next + c.period) as real + CarrySum(s.users, s.order) * c.period as real
  {
    hide Inv, Run, Before, Ticks, ResetWhileRunning, CarrySum, MicroRun, Wholes, Product;
    InvSetup(c, s);
    RunningGrid(c, s, ops, limit);
    RunIsMicroRun(c, s, ops);
    WindowGrants(c, s, Wholes(ops));
    WindowPhases(c, s, Run(c, s, ops), limit);
    WindowArithmetic(Run(c, s, ops).ever - s.ever, Run(c, s, ops).phases - s.phases, c.rate.budget, c.period,
        limit - s.next + c.period, CarrySum(s.users, s.order));
  }

  lemma WindowPhases(c: Setup, s: Books, r: Books, limit: nat)
    requires s.started && r.started && Timely(c, r, limit) && Origin(c, r) == Origin(c, s)
    ensures (r.phases - s.phases) * c.period <= limit - s.next + c.period
  {
  }

  lemma WindowArithmetic(pages: int, phases: int, budget: real, period: nat, elapsed: int, carry: real)
    requires 0.0 <= budget && pages as real <= Product(phases, budget) + carry && phases * period <= elapsed
    ensures pages as real * period as real <= budget * elapsed as real + carry * period as real
  {
    var p, n, t := period as real, phases as real, elapsed as real;
    assert pages as real * p <= (n * budget + carry) * p;
    assert (n * budget + carry) * p == budget * (n * p) + carry * p;
    assert n * p <= t;
    assert budget * (n * p) <= budget * t;
  }
}
