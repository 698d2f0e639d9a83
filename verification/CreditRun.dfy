/** Whole runs of the credit scheduler: any interleaving of submissions, direct charges, ticks and resets. */
module CreditRun {
  import opened CreditMath
  import opened CreditLedger
  import opened CreditInvariant

  // ----- tick --------------------------------------------------------------------------------------------

  /** One pass of the refill loop. */
  function Boundary(c: Setup, s: Books): (r: Books)
    requires Inv(c, s)
    ensures Inv(c, r) && r.phases == s.phases + 1 && r.next == s.next + c.period && r.started == s.started
  {
    PhaseKeeps(c, s);
    Phase(c, s)
  }

  /** The refill loop: one phase for every period boundary that has passed. */
  function Refill(c: Setup, s: Books, at: nat): (r: Books)
    requires Inv(c, s)
    ensures Inv(c, r)
    ensures r.started == s.started && !(r.started && r.next <= at)
    decreases if s.next <= at then at - s.next + 1 else 0
  {
    if s.started && s.next <= at then Refill(c, Boundary(c, s), at) else s
  }

  /** One dispatch: in-storage requests first, then host requests. */
  function Round(s: Books): (r: (Books, bool))
    requires Lists(s.order, s.users)
    ensures Clock(r.0) == Clock(s)
  {
    var r := ScanClass(s, true);
    if r.1 then r else ScanClass(r.0, false)
  }

  function Rounds(c: Setup, s: Books, n: nat): (r: Books)
    requires Inv(c, s)
    ensures Inv(c, r) && Clock(r) == Clock(s)
    decreases n
  {
    if n == 0 then s
    else
      RoundKeeps(c, s);
      var r := Round(s);
      if r.1 then Rounds(c, r.0, n - 1) else r.0
  }

  lemma RoundKeeps(c: Setup, s: Books)
    requires Inv(c, s)
    ensures Inv(c, Round(s).0)
  {
    hide Scan, After;
    ScanKeeps(c, s, true, After(s.order, s.lastIsc, 0), |s.order|);
    var r := ScanClass(s, true);
    InvLists(c, r.0);
    if !r.1 {
      ScanKeeps(c, r.0, false, After(r.0.order, r.0.lastHost, 0), |r.0.order|);
    }
  }

  const MaxDispatchPerTick: nat := 4096

  /** tick(): `delay` is the time the admin requests took. */
  function Tick(c: Setup, s: Books, now: nat, delay: nat): (r: Books)
    requires Inv(c, s)
    ensures Inv(c, r)
  {
    DrainAdminKeeps(c, s);
    var s2 := Refill(c, DrainAdmin(c, s), if s.admin == [] then now else now + delay);
    ResumeKeeps(c, s2, |s2.deferred|);
    var s3 := Resume(s2, |s2.deferred|);
    RunCallbacksKeeps(c, s3, |s3.callbacks|);
    var s4 := RunCallbacks(c, s3, |s3.callbacks|);
    RunIscKeeps(c, s4, |s4.isc|);
    Rounds(c, RunIsc(c, s4, |s4.isc|), MaxDispatchPerTick)
  }

  // ----- resets --------------------------------------------------------------------------------------------

  lemma {:induction false} ClearedCarry(users: Users, order: seq<nat>)
    requires Lists(order, users) && forall u :: u in users ==> users[u].carry == 0.0
    ensures CarrySum(users, order) == 0.0
    decreases |order|
  {
    if order != [] { ClearedCarry(users, order[..|order| - 1]); }
  }

  lemma {:induction false} CarryNonNegative(users: Users, order: seq<nat>)
    requires Lists(order, users) && AllSound(users)
    ensures 0.0 <= CarrySum(users, order)
    decreases |order|
  {
    if order != [] { CarryNonNegative(users, order[..|order| - 1]); }
  }

  lemma ClearedOk(r: Rate, u: nat, a: Account)
    requires r.Valid() && AccountOk(r, u, a)
    ensures Sound(Cleared(a)) && AccountOk(r, u, Cleared(a))
  {
  }

  lemma ResetAccounts(c: Setup, s: Books)
    requires Inv(c, s)
    ensures var s' := Reset(s);
            && Registered(s'.users, s'.order) && AccountsOk(c.rate, s'.users)
            && Balanced(s'.users, s'.granted, s'.log) && DeferredOk(s'.deferred, s'.users)
            && (forall u :: u in s'.users ==> s'.users[u].carry == 0.0)
  {
    hide Within, Conserved, Queued, Requests, Sound, AccountOk;
    forall u | u in s.users
      ensures Sound(Cleared(s.users[u])) && AccountOk(c.rate, u, Cleared(s.users[u]))
    {
      ClearedOk(c.rate, u, s.users[u]);
    }
    assert Reset(s).order == s.order && Reset(s).users.Keys == s.users.Keys;
  }

  lemma ResetConserves(s: Books)
    requires Lists(s.order, s.users) && Lists(s.order, Reset(s).users)
    ensures Conserved(Reset(s))
  {
    hide Queued, Requests;
    assert Left([]) == multiset{} && Finished([]) == multiset{};
  }

  lemma ResetKeeps(c: Setup, s: Books)
    requires Inv(c, s)
    ensures Inv(c, Reset(s))
  {
    hide CarrySum, Queued, Requests, Balanced, Conserved, Times, Sound, AccountOk;
    ResetAccounts(c, s);
    ResetConserves(s);
    ClearedCarry(Reset(s).users, s.order);
    CarryNonNegative(s.users, s.order);
  }

  // ----- runs ----------------------------------------------------------------------------------------------

  datatype Op =
    | SubmitOp(req: Request, now: nat)
    | CallbackOp(work: Work)
    | IscOp(work: Work, now: nat)
    | TakeOp(uid: nat, used: nat, why: Purpose)
    | TargetOp(uid: nat, target: Target)
    | TickOp(now: nat, delay: nat)
    | ResetOp
  {
    predicate Valid() {
      TargetOp? && target.Iops? ==> 0.0 <= target.pages
    }
  }

  function Step(c: Setup, s: Books, op: Op): (r: Books)
    requires Inv(c, s) && op.Valid()
    ensures Inv(c, r)
  {
    match op
    case SubmitOp(r, now) => SubmitKeeps(c, s, r, now); Submit(c, s, r, now)
    case CallbackOp(w) => SubmitCallbackKeeps(c, s, w); SubmitCallback(s, w)
    case IscOp(w, now) => SubmitIscKeeps(c, s, w, now); SubmitIsc(c, s, w, now)
    case TakeOp(u, used, why) => TakeKeeps(c, s, u, used, why); Take(c, s, u, used, why)
    case TargetOp(u, target) => SetTargetKeeps(c, s, u, target); SetTarget(c, s, u, target)
    case TickOp(now, delay) => Tick(c, s, now, delay)
    case ResetOp => ResetKeeps(c, s); Reset(s)
  }

  function Run(c: Setup, s: Books, ops: seq<Op>): (r: Books)
    requires Inv(c, s) && forall i :: 0 <= i < |ops| ==> ops[i].Valid()
    ensures Inv(c, r)
    decreases |ops|
  {
    if ops == [] then s else Run(c, Step(c, s, ops[0]), ops[1..])
  }

  const Blank: Books :=
    Books(map[], [], [], [], [], [], 0, false, 0, 0, map[], 0, 0, [], multiset{}, multiset{})

  /** The constructor enrols users 1001, 1002 and 1003. */
  function Initial(c: Setup): Books
    requires c.Valid()
  {
    Enroll(c, Enroll(c, Enroll(c, Blank, 1001), 1002), 1003)
  }

  lemma InitialKeeps(c: Setup)
    requires c.Valid()
    ensures Inv(c, Initial(c))
  {
    assert Inv(c, Blank);
    hide Inv;
    EnrollKeeps(c, Blank, 1001);
    EnrollKeeps(c, Enroll(c, Blank, 1001), 1002);
    EnrollKeeps(c, Enroll(c, Enroll(c, Blank, 1001), 1002), 1003);
  }

  /** After any run: no account exceeds its cap, an account's grants are its credit plus its charges, the
      grants to all users fit in the budgets of the phases run, and every request waits in one place or
      has left. */
  lemma LedgerAfterAnyRun(c: Setup, ops: seq<Op>, u: nat)
    requires c.Valid() && forall i :: 0 <= i < |ops| ==> ops[i].Valid()
    ensures Inv(c, Initial(c))
    ensures var s := Run(c, Initial(c), ops);
            && (u in s.users ==>
                  && u in s.granted
                  && s.users[u].credit <= s.users[u].cap == c.rate.Cap()
                  && s.granted[u] == s.users[u].credit + ChargedTo(s.log, u)
                  && s.users[u].consumed == ChargedTo(s.log, u))
            && s.ever as real <= Times(s.phases, c.rate.budget)
            && Conserved(s)
  {
    InitialKeeps(c);
    var s := Run(c, Initial(c), ops);
    CarryNonNegative(s.users, s.order);
  }
}
