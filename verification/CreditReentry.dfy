/** Callbacks that re-enter the scheduler. A tick calls out between its smallest steps only, so a run with
    callbacks is a run of such steps, mixed with whole operations in any way. */
module CreditReentry {
  import opened CreditMath
  import opened CreditLedger
  import opened CreditInvariant
  import opened CreditRun

  /** A whole operation, or one pass of one of the loops of tick(). */
  datatype Micro =
    | Whole(op: Op)
    | AdminOne
    | RefillOne
    | ResumeOne
    | CallbackOne
    | IscOne
    | HeadOne(uid: nat, isc: bool)
  {
    predicate Valid() {
      Whole? ==> op.Valid()
    }
  }

  /** A step that finds nothing to do changes nothing. */
  function MicroStep(c: Setup, s: Books, m: Micro): (r: Books)
    requires Inv(c, s) && m.Valid()
    ensures Inv(c, r)
  {
    InvSetup(c, s);
    match m
    case Whole(op) => Step(c, s, op)
    case AdminOne => if s.admin == [] then s else AdminStepKeeps(c, s); AdminStep(c, s)
    case RefillOne => Boundary(c, s)
    case ResumeOne => if s.deferred == [] then s else ResumeStepKeeps(c, s); ResumeStep(s)
    case CallbackOne => if s.callbacks == [] then s else CallbackStepKeeps(c, s); CallbackStep(c, s)
    case IscOne => if s.isc == [] then s else IscStepKeeps(c, s); IscStep(c, s)
    case HeadOne(u, isc) => if u !in s.users then s else TryHeadKeeps(c, s, u, isc); TryHead(s, u, isc).0
  }

  predicate AllValid(ms: seq<Micro>) {
    forall i :: 0 <= i < |ms| ==> ms[i].Valid()
  }

  /** Single passes of the loops of tick() only, no whole operation. */
  predicate AllSmall(ms: seq<Micro>) {
    forall i :: 0 <= i < |ms| ==> !ms[i].Whole?
  }

  function MicroRun(c: Setup, s: Books, ms: seq<Micro>): (r: Books)
    requires Inv(c, s) && AllValid(ms)
    ensures Inv(c, r)
    decreases |ms|
  {
    if ms == [] then s else MicroRun(c, MicroStep(c, s, ms[0]), ms[1..])
  }

  lemma {:induction false} MicroConcat(c: Setup, s: Books, a: seq<Micro>, b: seq<Micro>)
    requires Inv(c, s) && AllValid(a) && AllValid(b)
    ensures MicroRun(c, s, a + b) == MicroRun(c, MicroRun(c, s, a), b)
    decreases |a|
  {
    hide Inv, MicroStep;
    if a == [] {
      assert a + b == b;
    } else {
      assert (a + b)[1..] == a[1..] + b;
      MicroConcat(c, MicroStep(c, s, a[0]), a[1..], b);
    }
  }

  lemma MicroCons(c: Setup, s: Books, m: Micro, ms: seq<Micro>)
    requires Inv(c, s) && m.Valid() && AllValid(ms)
    ensures MicroRun(c, s, [m] + ms) == MicroRun(c, MicroStep(c, s, m), ms)
  {
    hide Inv, MicroStep;
    assert ([m] + ms)[1..] == ms;
  }

  // ----- a tick is a run of small steps ------------------------------------------------------------------------

  /** Small steps alone lead from one state to the other. */
  ghost predicate Reaches(c: Setup, s: Books, r: Books)
    requires Inv(c, s)
  {
    exists ms :: AllSmall(ms) && AllValid(ms) && MicroRun(c, s, ms) == r
  }

  lemma ReachesSelf(c: Setup, s: Books)
    requires Inv(c, s)
    ensures Reaches(c, s, s)
  {
    assert AllSmall([]) && AllValid([]) && MicroRun(c, s, []) == s;
  }

  lemma ReachesOne(c: Setup, s: Books, m: Micro, r: Books)
    requires Inv(c, s) && !m.Whole? && Reaches(c, MicroStep(c, s, m), r)
    ensures Reaches(c, s, r)
  {
    hide Inv, MicroStep;
    var ms :| AllSmall(ms) && AllValid(ms) && MicroRun(c, MicroStep(c, s, m), ms) == r;
    MicroCons(c, s, m, ms);
    assert AllSmall([m] + ms) && AllValid([m] + ms);
  }

  lemma ReachesTrans(c: Setup, s: Books, t: Books, r: Books)
    requires Inv(c, s) && Inv(c, t) && Reaches(c, s, t) && Reaches(c, t, r)
    ensures Reaches(c, s, r)
  {
    hide Inv, MicroRun;
    var a :| AllSmall(a) && AllValid(a) && MicroRun(c, s, a) == t;
    var b :| AllSmall(b) && AllValid(b) && MicroRun(c, t, b) == r;
    MicroConcat(c, s, a, b);
    assert AllSmall(a + b) && AllValid(a + b);
  }

  lemma {:induction false} AdminReaches(c: Setup, s: Books)
    requires Inv(c, s) && c.Valid()
    ensures Reaches(c, s, DrainAdmin(c, s))
    decreases |s.admin|
  {
    hide Inv, AdminStep, Reaches;
    if s.admin == [] {
      ReachesSelf(c, s);
    } else {
      AdminStepKeeps(c, s);
      AdminReaches(c, AdminStep(c, s));
      ReachesOne(c, s, AdminOne, DrainAdmin(c, s));
    }
  }

  lemma {:induction false} RefillReaches(c: Setup, s: Books, at: nat)
    requires Inv(c, s) && c.Valid()
    ensures Reaches(c, s, Refill(c, s, at))
    decreases if s.next <= at then at - s.next + 1 else 0
  {
    hide Inv, Boundary, Reaches;
    if s.started && s.next <= at {
      RefillReaches(c, Boundary(c, s), at);
      ReachesOne(c, s, RefillOne, Refill(c, s, at));
    } else {
      ReachesSelf(c, s);
    }
  }

  lemma {:induction false} ResumeReaches(c: Setup, s: Books, n: nat)
    requires Inv(c, s)
    ensures Reaches(c, s, Resume(s, n))
    decreases n
  {
    hide Inv, ResumeStep, Reaches;
    if n == 0 || s.deferred == [] {
      ReachesSelf(c, s);
    } else {
      ResumeStepKeeps(c, s);
      ResumeReaches(c, ResumeStep(s), n - 1);
      ReachesOne(c, s, ResumeOne, Resume(s, n));
    }
  }

  lemma {:induction false} CallbacksReach(c: Setup, s: Books, n: nat)
    requires Inv(c, s) && c.Valid()
    ensures Reaches(c, s, RunCallbacks(c, s, n))
    decreases n
  {
    hide Inv, CallbackStep, Reaches;
    if n == 0 || s.callbacks == [] {
      ReachesSelf(c, s);
    } else {
      CallbackStepKeeps(c, s);
      CallbacksReach(c, CallbackStep(c, s), n - 1);
      ReachesOne(c, s, CallbackOne, RunCallbacks(c, s, n));
    }
  }

  lemma {:induction false} IscReaches(c: Setup, s: Books, n: nat)
    requires Inv(c, s) && c.Valid()
    ensures Reaches(c, s, RunIsc(c, s, n))
    decreases n
  {
    hide Inv, IscStep, Reaches;
    if n == 0 || s.isc == [] {
      ReachesSelf(c, s);
    } else {
      IscStepKeeps(c, s);
      IscReaches(c, IscStep(c, s), n - 1);
      ReachesOne(c, s, IscOne, RunIsc(c, s, n));
    }
  }

  lemma {:induction false} ScanReaches(c: Setup, s: Books, isc: bool, i: nat, left: nat)
    requires Inv(c, s) && Lists(s.order, s.users)
    ensures Reaches(c, s, Scan(s, isc, i, left).0)
    decreases left
  {
    hide Inv, TryHead, Reaches;
    if left == 0 || s.order == [] {
      ReachesSelf(c, s);
    } else {
      var k := if i >= |s.order| then 0 else i;
      var u := s.order[k];
      TryHeadKeeps(c, s, u, isc);
      var r := TryHead(s, u, isc);
      InvLists(c, r.0);
      if r.1 {
        ReachesSelf(c, r.0);
      } else {
        ScanReaches(c, r.0, isc, k + 1, left - 1);
      }
      ReachesOne(c, s, HeadOne(u, isc), Scan(s, isc, i, left).0);
    }
  }

  lemma RoundReaches(c: Setup, s: Books)
    requires Inv(c, s) && Lists(s.order, s.users)
    ensures Inv(c, Round(s).0) && Reaches(c, s, Round(s).0)
  {
    hide Inv, Scan, After, Reaches;
    RoundKeeps(c, s);
    ScanKeeps(c, s, true, After(s.order, s.lastIsc, 0), |s.order|);
    ScanReaches(c, s, true, After(s.order, s.lastIsc, 0), |s.order|);
    var r := ScanClass(s, true);
    InvLists(c, r.0);
    if !r.1 {
      ScanReaches(c, r.0, false, After(r.0.order, r.0.lastHost, 0), |r.0.order|);
      ReachesTrans(c, s, r.0, Round(s).0);
    }
  }

  lemma {:induction false} RoundsReach(c: Setup, s: Books, n: nat)
    requires Inv(c, s)
    ensures Reaches(c, s, Rounds(c, s, n))
    decreases n
  {
    hide Inv, Round, Reaches;
    if n == 0 {
      ReachesSelf(c, s);
    } else {
      InvLists(c, s);
      RoundReaches(c, s);
      var r := Round(s);
      if r.1 {
        RoundsReach(c, r.0, n - 1);
        ReachesTrans(c, s, r.0, Rounds(c, s, n));
      }
    }
  }

  /** Without callbacks a tick is a run of small steps alone. */
  lemma TickReaches(c: Setup, s: Books, now: nat, delay: nat)
    requires Inv(c, s)
    ensures Reaches(c, s, Tick(c, s, now, delay))
  {
    hide Inv, DrainAdmin, Refill, Resume, RunCallbacks, RunIsc, Rounds, Reaches;
    InvSetup(c, s);
    DrainAdminKeeps(c, s);
    AdminReaches(c, s);
    var s1 := DrainAdmin(c, s);
    var at := if s.admin == [] then now else now + delay;
    RefillReaches(c, s1, at);
    var s2 := Refill(c, s1, at);
    ReachesTrans(c, s, s1, s2);
    ResumeKeeps(c, s2, |s2.deferred|);
    ResumeReaches(c, s2, |s2.deferred|);
    var s3 := Resume(s2, |s2.deferred|);
    ReachesTrans(c, s, s2, s3);
    RunCallbacksKeeps(c, s3, |s3.callbacks|);
    CallbacksReach(c, s3, |s3.callbacks|);
    var s4 := RunCallbacks(c, s3, |s3.callbacks|);
    ReachesTrans(c, s, s3, s4);
    RunIscKeeps(c, s4, |s4.isc|);
    IscReaches(c, s4, |s4.isc|);
    var s5 := RunIsc(c, s4, |s4.isc|);
    ReachesTrans(c, s, s4, s5);
    RoundsReach(c, s5, MaxDispatchPerTick);
    ReachesTrans(c, s, s5, Rounds(c, s5, MaxDispatchPerTick));
  }

  /** The ledger after any run with callbacks: whatever is done between the small steps of a tick, accounts balance,
      grants fit in the budgets of the phases run, and every request waits in one place or has left. */
  lemma LedgerUnderReentry(c: Setup, ms: seq<Micro>, u: nat)
    requires c.Valid() && AllValid(ms)
    ensures Inv(c, Initial(c))
    ensures var s := MicroRun(c, Initial(c), ms);
            && (u in s.users ==>
                  && u in s.granted
                  && s.users[u].credit <= s.users[u].cap == c.rate.Cap()
                  && s.granted[u] == s.users[u].credit + ChargedTo(s.log, u)
                  && s.users[u].consumed == ChargedTo(s.log, u))
            && s.ever as real <= Times(s.phases, c.rate.budget)
            && Conserved(s)
  {
    hide MicroRun;
    InitialKeeps(c);
    var s := MicroRun(c, Initial(c), ms);
    CarryNonNegative(s.users, s.order);
  }
}
