/** The scheduler object of hil/scheduler/credit_scheduler.cc, with its fields, queues and loops. */
module CreditScheduler {
  import opened CreditMath
  import opened CreditLedger
  import opened CreditInvariant
  import opened CreditRun
  import opened CreditDemands

  const PagesPerSecond: nat := 12000

  /** pagesPerPeriod_ and the period, as the constructor computes them. */
  function Configured(periodTicks: nat, ticksPerSecond: nat, slo: set<nat>): (c: Setup)
    requires 0 < periodTicks && 0 < ticksPerSecond
    ensures c.Valid() && c.period == periodTicks && c.slo == slo
    ensures c.rate.budget * ticksPerSecond as real == PagesPerSecond as real * periodTicks as real
    ensures c.rate.seconds * ticksPerSecond as real == periodTicks as real
  {
    Setup(Rate(PagesPerSecond as real * periodTicks as real / ticksPerSecond as real,
        periodTicks as real / ticksPerSecond as real),
          periodTicks, slo)
  }

  class Scheduler {
    const c: Setup

    var users: Users
    var order: seq<nat>
    var adminQueue: seq<Request>
    var deferredQueue: seq<Deferred>
    var deferredIsc: seq<Work>
    var deferredIscRequests: seq<Work>
    var nextRefill: nat
    var timerStarted: bool
    var lastChosen: nat
    var lastChosenIsc: nat

    ghost var granted: map<nat, nat>
    ghost var ever: nat
    ghost var phases: nat
    ghost var log: seq<Entry>
    ghost var submitted: multiset<Request>
    ghost var tasks: multiset<Work>

    ghost function State(): Books
      reads this
    {
      Books(users, order, adminQueue, deferredQueue, deferredIsc, deferredIscRequests,
            nextRefill, timerStarted, lastChosen, lastChosenIsc,
            granted, ever, phases, log, submitted, tasks)
    }

    ghost predicate Valid()
      reads this
    {
      Inv(c, State())
    }

    constructor (periodTicks: nat, ticksPerSecond: nat, slo: set<nat>)
      requires 0 < periodTicks && 0 < ticksPerSecond
      ensures c == Configured(periodTicks, ticksPerSecond, slo)
      ensures Valid() && State() == Initial(c)
    {
      hide Configured, Inv, Initial;
      c := Configured(periodTicks, ticksPerSecond, slo);
      users, order := map[], [];
      adminQueue, deferredQueue, deferredIsc, deferredIscRequests := [], [], [], [];
      nextRefill, timerStarted, lastChosen, lastChosenIsc := 0, false, 0, 0;
      granted, ever, phases, log, submitted, tasks := map[], 0, 0, [], multiset{}, multiset{};
      new;
      BlankIsValid(c);
      InitialSteps(c);
      GetOrCreateUser(1001);
      GetOrCreateUser(1002);
      GetOrCreateUser(1003);
    }

    method GetOrCreateUser(u: nat)
      requires Valid()
      modifies this`users, this`order, this`granted
      ensures Valid() && State() == Enroll(c, old(State()), u)
    {
      hide Inv;
      InvSetup(c, State());
      EnrollKeeps(c, State(), u);
      if u !in users {
        var slo := u in c.slo;
        users := users[u := Account(1, c.rate.Cap(), 0, 0.0, 0, 0, 0, slo, false, NoTarget, 0.0, 1.0, 0, [], [])];
        order := order + [u];
        granted := granted[u := 0];
      }
    }

    /** Take n pages from an account. */
    method Pay(u: nat, n: nat, why: Purpose)
      requires u in users && n <= users[u].credit
      modifies this`users
      ensures users == old(users)[u := Paid(old(users[u]), n, why)]
    {
      var a := users[u];
      a := a.(credit := a.credit - n, consumed := a.consumed + n);
      match why {
        case ForHost => a := a.(consumedHost := a.consumedHost + n);
        case ForIsc => a := a.(consumedIsc := a.consumedIsc + n);
        case Unclassified =>
      }
      users := users[u := a];
    }

    /** Mark a user active; the first activation starts the refill timer. */
    method ActivateUser(u: nat, now: nat)
      requires Valid() && u in users
      modifies this`users, this`nextRefill, this`timerStarted
      ensures Valid() && c.Valid() && State() == Activate(c, old(State()), u, now)
    {
      hide Inv;
      InvSetup(c, State());
      ActivateKeeps(c, State(), u, now);
      if !users[u].active {
        users := users[u := users[u].(active := true, credit := 0)];
        if !timerStarted {
          nextRefill := now + c.period;
          timerStarted := true;
        }
      }
    }

    method SubmitRequest(r: Request, now: nat)
      requires Valid()
      modifies this
      ensures Valid() && c.Valid() && State() == Submit(c, old(State()), r, now)
    {
      hide Inv, Enroll, Activate, Submit, Enqueued;
      InvSetup(c, State());
      SubmitKeeps(c, State(), r, now);
      SubmitIs(c, State(), r, now);
      if r.uid == 0 {
        adminQueue := adminQueue + [r];
        submitted := submitted + multiset{r};
      } else {
        GetOrCreateUser(r.uid);
        Enqueue(r);
        ActivateUser(r.uid, now);
      }
    }

    /** A gate goes to the front of the in-storage queue, any other request to the back of the host queue. */
    method Enqueue(r: Request)
      requires Valid() && r.uid in users
      modifies this`users, this`submitted
      ensures Valid() && r.uid in users && State() == Enqueued(old(State()), r)
    {
      hide Inv;
      EnqueueKeeps(c, State(), r);
      var a := users[r.uid];
      if r.op == CreditOnly || r.op == IscResult {
        if r.op == CreditOnly { a := a.(gates := a.gates + 1); }
        a := a.(queueIsc := [r] + a.queueIsc);
      } else {
        a := a.(queue := a.queue + [r]);
      }
      users := users[r.uid := a];
      submitted := submitted + multiset{r};
    }

    method UseCredit(u: nat, used: nat, isc: bool)
      requires Valid()
      modifies this
      ensures Valid() && c.Valid() && State() == Take(c, old(State()), u, used, if isc then ForIsc else Unclassified)
    {
      hide Inv, Enroll, Paid;
      InvSetup(c, State());
      EnrollLeaves(c, State(), u);
      var why := if isc then ForIsc else Unclassified;
      TakeKeeps(c, State(), u, used, why);
      GetOrCreateUser(u);
      var take := if used > users[u].credit then users[u].credit else used;
      Pay(u, take, why);
      log := log + [Taken(u, take)];
    }

    method SubmitIscDeferred(w: Work)
      requires Valid()
      modifies this
      ensures Valid() && State() == SubmitCallback(old(State()), w)
    {
      hide Inv;
      SubmitCallbackKeeps(c, State(), w);
      deferredIsc := deferredIsc + [w];
      tasks := tasks + multiset{w};
    }

    /** A null context (0) is refused. */
    method SubmitIscRequest(w: Work, now: nat) returns (accepted: bool)
      requires Valid()
      modifies this
      ensures accepted == (w.context != 0)
      ensures Valid() && c.Valid() && State() == if accepted then SubmitIsc(c, old(State()), w, now) else old(State())
    {
      hide Inv, Enroll, Activate, SubmitIsc, Clock;
      InvSetup(c, State());
      if w.context == 0 { return false; }
      SubmitIscKeeps(c, State(), w, now);
      SubmitIscIs(c, State(), w, now);
      GetOrCreateUser(w.uid);
      ActivateUser(w.uid, now);
      ExecuteOrDefer(w);
      accepted := true;
    }

    /** Pay and execute, or wait for credit. */
    method ExecuteOrDefer(w: Work)
      requires w.uid in users
      modifies this`users, this`log, this`tasks, this`deferredIscRequests
      ensures State() == Started(old(State()), w)
    {
      hide Paid;
      tasks := tasks + multiset{w};
      if users[w.uid].credit >= w.pages {
        Pay(w.uid, w.pages, ForIsc);
        log := log + [Worked(w)];
      } else {
        deferredIscRequests := deferredIscRequests + [w];
      }
    }

    method SetUserIopsTarget(u: nat, iops: real)
      requires Valid() && 0.0 <= iops
      modifies this
      ensures Valid() && c.Valid() && State() == SetTarget(c, old(State()), u, Iops(iops))
    {
      hide Inv;
      InvSetup(c, State());
      SetTargetKeeps(c, State(), u, Iops(iops));
      GetOrCreateUser(u);
      users := users[u := users[u].(mode := IopsTarget, targetIops := iops)];
    }

    method SetUserTailTarget(u: nat)
      requires Valid()
      modifies this
      ensures Valid() && c.Valid() && State() == SetTarget(c, old(State()), u, Tail)
    {
      hide Inv;
      InvSetup(c, State());
      SetTargetKeeps(c, State(), u, Tail);
      GetOrCreateUser(u);
      users := users[u := users[u].(mode := TailTarget)];
    }

    method ClearAccounts()
      requires Registered(users, order)
      modifies this`users
      ensures users == AllCleared(old(users))
    {
      hide Cleared;
      ghost var was := users;
      for i := 0 to |order|
        invariant users.Keys == was.Keys
        invariant forall j :: 0 <= j < i ==> users[order[j]] == Cleared(was[order[j]])
        invariant forall j :: i <= j < |order| ==> users[order[j]] == was[order[j]]
      {
        var a := users[order[i]];
        ClearedIs(a);
        users := users[order[i] := a.(credit := 0, carry := 0.0, consumed := 0, consumedHost := 0, consumedIsc := 0,
                                      active := false, gates := 0, queueIsc := [])];
      }
    }

    method ResetStatValues()
      requires Valid()
      modifies this
      ensures Lists(old(order), old(users)) && Valid() && State() == Reset(old(State()))
    {
      hide Inv, AllCleared, Registered, Reset, Lists;
      InvLists(c, State());
      InvOrder(c, State());
      ResetKeeps(c, State());
      ResetIs(State());
      ghost var after := Reset(State());
      ClearAccounts();
      ClearQueues();
      Restart(after);
    }

    method ClearQueues()
      modifies this`adminQueue, this`lastChosen, this`nextRefill
      ensures State() == old(State()).(admin := [], lastHost := 0, next := 0)
    {
      adminQueue := [];
      lastChosen := 0;
      nextRefill := 0;
    }

    /** The record starts anew. */
    ghost method Restart(after: Books)
      modifies this`granted, this`log, this`submitted, this`tasks
      ensures State() == old(State()).(granted := after.granted, log := [], submitted := after.submitted,
          tasks := after.tasks)
    {
      granted, log, submitted, tasks := after.granted, [], after.submitted, after.tasks;
    }

    // ----- tick() ---------------------------------------------------------------------------------------

    /** dispatchICL: only its effect on the accounts. */
    method DispatchIcl(r: Request)
      requires Valid()
      modifies this`users, this`order, this`granted
      ensures Valid() && c.Valid()
      ensures State() == if r.op == Read || r.op == Write then Enroll(c, old(State()), r.uid) else old(State())
    {
      hide Inv;
      InvSetup(c, State());
      if r.op == Read || r.op == Write { GetOrCreateUser(r.uid); }
    }

    /** (0) Admin requests leave first, free of charge. */
    method DispatchAdmin()
      requires Valid()
      modifies this
      ensures Valid() && c.Valid() && State() == DrainAdmin(c, old(State()))
    {
      hide Inv, Enroll;
      InvSetup(c, State());
      while adminQueue != []
        invariant Valid() && DrainAdmin(c, State()) == DrainAdmin(c, old(State()))
        decreases |adminQueue|
      {
        AdminStepKeeps(c, State());
        var r := adminQueue[0];
        ghost var before := State();
        adminQueue := adminQueue[1..];
        log := log + [Admin(r)];
        DispatchIcl(r);
        assert State() == AdminStep(c, before);
      }
    }

    method SumWeights() returns (slo: nat, rest: nat)
      requires Lists(order, users)
      ensures slo == WeightSum(users, order, true) && rest == WeightSum(users, order, false)
    {
      slo, rest := 0, 0;
      for i := 0 to |order|
        invariant slo == WeightSum(users, order[..i], true) && rest == WeightSum(users, order[..i], false)
      {
        assert order[..i + 1][..i] == order[..i];
        var a := users[order[i]];
        if a.active {
          if a.slo { slo := slo + a.weight; } else { rest := rest + a.weight; }
        }
      }
      assert order[..|order|] == order;
    }

    /** The first pass over the guaranteed users. */
    method CollectDemands(weights: nat) returns (demands: seq<SloDemand>, total: nat)
      requires c.Valid() && AllSound(users) && Lists(order, users) && 0 < weights
      ensures demands == DemandsOf(c.rate, users, order, weights) && total == WantSum(c.rate, users, order, weights)
    {
      hide Demand;
      demands, total := [], 0;
      for i := 0 to |order|
        invariant demands == DemandsOf(c.rate, users, order[..i], weights)
        invariant total == WantSum(c.rate, users, order[..i], weights)
      {
        assert order[..i + 1][..i] == order[..i];
        var a := users[order[i]];
        if a.active && a.slo {
          var due := Demand(c.rate, a, weights);
          demands := demands + [SloDemand(order[i], due.Floor, Headroom(a), due - due.Floor as real)];
          total := total + due.Floor;
        }
      }
      assert order[..|order|] == order;
    }

    /** The second pass: what each demand is granted. */
    method DecideGrants(demands: seq<SloDemand>, whole: nat, total: nat) returns (grants: seq<nat>, sum: nat)
      ensures |grants| == |demands| && sum == GrantsOf(demands, whole, total)
      ensures forall k :: 0 <= k < |demands| ==> grants[k] == GrantOf(demands[k], whole, total)
    {
      hide Scaled;
      grants, sum := [], 0;
      for k := 0 to |demands|
        invariant |grants| == k && sum == GrantsOf(demands[..k], whole, total)
        invariant forall j :: 0 <= j < k ==> grants[j] == GrantOf(demands[j], whole, total)
      {
        assert demands[..k + 1][..k] == demands[..k];
        var d := demands[k];
        var share := if total <= whole then d.demand else Scaled(d.demand, whole, total);
        var grant := Min(share, d.headroom);
        grants := grants + [grant];
        sum := sum + grant;
      }
      assert demands[..|demands|] == demands;
    }

    /** The third pass: credit and carry of the guaranteed users. */
    method ApplyGrants(demands: seq<SloDemand>, grants: seq<nat>)
      requires |grants| == |demands|
      requires forall k :: 0 <= k < |demands| ==> demands[k].uid in users
      requires forall j, k :: 0 <= j < k < |demands| ==> demands[j].uid != demands[k].uid
      modifies this`users
      ensures users.Keys == old(users).Keys
      ensures forall k :: 0 <= k < |demands| ==>
                var a := old(users)[demands[k].uid];
                users[demands[k].uid] == a.(credit := a.credit + grants[k], carry := demands[k].carry)
      ensures forall u :: u in users && (forall k :: 0 <= k < |demands| ==> demands[k].uid != u) ==>
          users[u] == old(users)[u]
    {
      for k := 0 to |demands|
        invariant users.Keys == old(users).Keys
        invariant forall j :: 0 <= j < k ==>
                    var a := old(users)[demands[j].uid];
                    users[demands[j].uid] == a.(credit := a.credit + grants[j], carry := demands[j].carry)
        invariant forall u :: u in users && (forall j :: 0 <= j < k ==> demands[j].uid != u) ==>
            users[u] == old(users)[u]
      {
        var a := users[demands[k].uid];
        users := users[demands[k].uid := a.(credit := a.credit + grants[k], carry := demands[k].carry)];
      }
    }

    /** The guaranteed users' part of a phase, and what is left for the others. */
    method GrantGuaranteed(slo: nat, ghost t: Totals) returns (spill: real)
      requires c.Valid() && AllSound(users) && Registered(users, order)
      requires slo == WeightSum(users, order, true) && t == TotalsOf(c.rate, users, order)
      modifies this`users
      ensures GuaranteedDone(t, old(users), users) && spill == t.spill
    {
      hide WeightSum, WantSum, SloGrantSum, AfterPhase, Sound, DemandsOf, GrantsOf, GrantOf;
      spill := c.rate.budget;
      if slo > 0 {
        var demands, total := CollectDemands(slo);
        DemandsAreComplete(c.rate, users, order, slo);
        GrantsOfDemands(c.rate, users, order, slo, total);
        SloGrantsWithinBudget(c.rate, users, order, slo);
        var whole := c.rate.Whole();
        var grants, sum := DecideGrants(demands, whole, total);
        ApplyGrants(demands, grants);
        GrantsAreAfterPhase(old(users), order, t, users, demands, grants);
        spill := if total <= whole then (whole - sum) as real else 0.0;
      }
    }

    method ShareOne(u: nat, spill: real, weights: nat)
      requires u in users && Sound(users[u]) && 0.0 < spill && 0 < weights
      modifies this`users
      ensures users == old(users)[u := Shared(old(users[u]), spill, weights)]
    {
      hide Sound, BestEffortGrant, CreditMath.Due;
      var a := users[u];
      if a.active && !a.slo {
        var add := BestEffortGrant(a, spill, weights);
        users := users[u := a.(credit := a.credit + add, carry := CreditMath.Due(a, spill, weights) - add as real)];
      }
    }

    /** What guaranteed users leave is shared among the best-effort users. */
    method ShareSpill(ghost t: Totals, ghost was: Users, spill: real, weights: nat)
      requires Registered(users, order) && AllSound(was)
      requires t.Valid() && t.spill == spill && t.restWeight == weights && GuaranteedDone(t, was, users)
      modifies this`users
      ensures users == AllAfterPhase(t, was)
    {
      hide Sound, Halfway, AfterPhase, Shared;
      if spill > 0.0 && weights > 0 {
        for i := 0 to |order|
          invariant users.Keys == was.Keys
          invariant forall j :: 0 <= j < i ==> users[order[j]] == AfterPhase(t, was[order[j]])
          invariant forall j :: i <= j < |order| ==> users[order[j]] == Halfway(t, was[order[j]])
        {
          SecondHalf(t, was[order[i]]);
          ShareOne(order[i], spill, weights);
        }
      } else {
        forall u | u in was
          ensures Halfway(t, was[u]) == AfterPhase(t, was[u])
        {
          SecondHalf(t, was[u]);
        }
      }
    }

    /** (1) One refill phase. */
    method RefillPhase()
      requires Valid()
      modifies this
      ensures Valid() && old(Valid()) && State() == Boundary(c, old(State()))
    {
      hide Inv, GrantSum, WeightSum, TotalsOf, AllAfterPhase, GuaranteedDone, Boundary;
      ghost var s0 := State();
      PhaseFacts(c, s0);
      ghost var t := TotalsOf(c.rate, users, order);
      TotalsWeights(c.rate, users, order);
      ghost var s1 := Phase(c, s0);
      var slo, rest := SumWeights();
      var spill := GrantGuaranteed(slo, t);
      GuaranteedKeys(t, s0.users, users);
      ShareSpill(t, s0.users, spill, rest);
      RecordPhase(s1);
      nextRefill := nextRefill + c.period;
    }

    ghost method RecordPhase(after: Books)
      modifies this`granted, this`ever, this`phases
      ensures State() == old(State()).(granted := after.granted, ever := after.ever, phases := after.phases)
    {
      granted, ever, phases := after.granted, after.ever, after.phases;
    }

    method RefillDue(now: nat)
      requires Valid()
      modifies this
      ensures Valid() && old(Valid()) && State() == Refill(c, old(State()), now)
    {
      hide Inv, Boundary;
      InvSetup(c, State());
      while timerStarted && now >= nextRefill
        invariant Valid() && Refill(c, State(), now) == Refill(c, old(State()), now)
        decreases if nextRefill <= now then now - nextRefill + 1 else 0
      {
        RefillPhase();
      }
    }

    /** (2) Each deferred request gets one chance. */
    method ResumeRequest()
      requires Valid() && deferredQueue != []
      modifies this
      ensures Valid() && State() == ResumeStep(old(State()))
    {
      hide Inv, Pages, Paid;
      ResumeStepKeeps(c, State());
      HeadRegistered(c, State());
      var d := deferredQueue[0];
      deferredQueue := deferredQueue[1..];
      if users[d.req.uid].credit >= d.pages {
        Pay(d.req.uid, d.pages, PurposeOf(d.req));
        log := log + [Served(d.req)];
      } else {
        deferredQueue := deferredQueue + [d];
      }
    }

    method ResumeDeferred()
      requires Valid()
      modifies this
      ensures Valid() && State() == Resume(old(State()), |old(deferredQueue)|)
    {
      hide Inv, Pages, Paid;
      var n := |deferredQueue|;
      for i := 0 to n
        invariant Valid() && |deferredQueue| >= n - i
        invariant Resume(State(), n - i) == Resume(old(State()), n)
      {
        ResumeRequest();
      }
    }

    method ResumeCallback()
      requires Valid() && deferredIsc != []
      modifies this
      ensures Valid() && c.Valid() && State() == CallbackStep(c, old(State()))
    {
      hide Inv, Enroll, Paid;
      InvSetup(c, State());
      CallbackStepKeeps(c, State());
      EnrollLeaves(c, State(), deferredIsc[0].uid);
      var w := deferredIsc[0];
      GetOrCreateUser(w.uid);
      deferredIsc := deferredIsc[1..];
      if users[w.uid].credit >= w.pages {
        Pay(w.uid, w.pages, ForIsc);
        log := log + [Worked(w)];
      } else {
        deferredIsc := deferredIsc + [w];
      }
    }

    method ResumeCallbacks()
      requires Valid()
      modifies this
      ensures Valid() && c.Valid() && State() == RunCallbacks(c, old(State()), |old(deferredIsc)|)
    {
      hide Inv, CallbackStep;
      InvSetup(c, State());
      var n := |deferredIsc|;
      for i := 0 to n
        invariant Valid() && |deferredIsc| >= n - i
        invariant RunCallbacks(c, State(), n - i) == RunCallbacks(c, old(State()), n)
      {
        CallbackLength(c, State());
        ResumeCallback();
      }
    }

    method ProcessIscRequest()
      requires Valid() && deferredIscRequests != []
      modifies this
      ensures Valid() && c.Valid() && State() == IscStep(c, old(State()))
    {
      hide Inv, Enroll, Paid;
      InvSetup(c, State());
      IscStepKeeps(c, State());
      EnrollLeaves(c, State(), deferredIscRequests[0].uid);
      var w := deferredIscRequests[0];
      GetOrCreateUser(w.uid);
      deferredIscRequests := deferredIscRequests[1..];
      if users[w.uid].credit >= w.pages {
        Pay(w.uid, w.pages, ForIsc);
        log := log + [Worked(w)];
      } else {
        deferredIscRequests := deferredIscRequests + [w];
      }
    }

    /** Requests that stay go to the back; after one turn each they are in their old order again. */
    method ProcessIscRequests()
      requires Valid()
      modifies this
      ensures Valid() && c.Valid() && State() == RunIsc(c, old(State()), |old(deferredIscRequests)|)
    {
      hide Inv, IscStep;
      InvSetup(c, State());
      var n := |deferredIscRequests|;
      for i := 0 to n
        invariant Valid() && |deferredIscRequests| >= n - i
        invariant RunIsc(c, State(), n - i) == RunIsc(c, old(State()), n)
      {
        IscLength(c, State());
        ProcessIscRequest();
      }
    }

    method PopHead(u: nat, isc: bool)
      requires u in users && (if isc then users[u].queueIsc else users[u].queue) != []
      modifies this`users
      ensures users == old(users)[u := Popped(old(users[u]), isc)]
    {
      var a := users[u];
      if isc {
        users := users[u := a.(queueIsc := a.queueIsc[1..])];
      } else {
        users := users[u := a.(queue := a.queue[1..])];
      }
    }

    method ServeHead(u: nat, isc: bool, r: Request)
      requires u in users && (if isc then users[u].queueIsc else users[u].queue) != [] && Pages(r) <= users[u].credit
      modifies this`users, this`log
      ensures users == old(users)[u := Paid(Popped(old(users[u]), isc), Pages(r), if isc then ForIsc else PurposeOf(r))]
      ensures log == old(log) + [Served(r)]
    {
      hide Pages, Paid, PurposeOf, Popped;
      PopHead(u, isc);
      Pay(u, Pages(r), if isc then ForIsc else PurposeOf(r));
      log := log + [Served(r)];
    }

    /** Serve the head of a queue of user u, or move it to the deferred requests. */
    method TryDispatch(u: nat, isc: bool) returns (served: bool)
      requires Valid() && u in users
      modifies this
      ensures Valid() && (State(), served) == TryHead(old(State()), u, isc)
    {
      hide Inv, Pages, TryHead, Paid, PurposeOf, Popped;
      TryHeadKeeps(c, State(), u, isc);
      TryHeadIs(State(), u, isc);
      var a := users[u];
      var q := if isc then a.queueIsc else a.queue;
      if q == [] { return false; }
      var r := q[0];
      if a.credit >= Pages(r) {
        ServeHead(u, isc, r);
        if isc { lastChosenIsc := u; } else { lastChosen := u; }
        served := true;
      } else {
        PopHead(u, isc);
        deferredQueue := deferredQueue + [Deferred(r, Pages(r))];
        served := false;
      }
    }

    /** The position after the user chosen last. */
    method Start(last: nat) returns (i: nat)
      ensures i == After(order, last, 0)
    {
      i := 0;
      while i < |order| && order[i] != last
        invariant i <= |order| && After(order, last, i) == After(order, last, 0)
      {
        i := i + 1;
      }
      i := if i == |order| then 0 else i + 1;
    }

    /** Visit every user once, starting after the one chosen last, until one is served. */
    method TryDispatchClass(isc: bool) returns (served: bool)
      requires Valid()
      modifies this
      ensures Valid() && Lists(old(order), old(users)) && (State(), served) == ScanClass(old(State()), isc)
    {
      hide Inv, TryHead, After, Clock, Scan, Lists;
      InvLists(c, State());
      var i: nat := Start(if isc then lastChosenIsc else lastChosen);
      var left: nat := |order|;
      served := false;
      ghost var goal := ScanClass(State(), isc);
      while left > 0 && !served
        invariant Valid() && Lists(order, users) && left <= |order|
        invariant (if served then (State(), true) else Scan(State(), isc, i, left)) == goal
      {
        ScanVisit(State(), isc, i, left);
        if i >= |order| { i := 0; }
        served := TryDispatch(order[i], isc);
        InvLists(c, State());
        i := i + 1;
        left := left - 1;
      }
      if !served { ScanEnd(State(), isc, i); }
    }

    /** (3) In-storage requests first, one at a time, then host requests, up to a limit. */
    method DispatchRounds()
      requires Valid()
      modifies this
      ensures Valid() && old(Valid()) && State() == Rounds(c, old(State()), MaxDispatchPerTick)
    {
      hide Inv, ScanClass;
      var n := MaxDispatchPerTick;
      while n > 0
        invariant Valid() && Rounds(c, State(), n) == Rounds(c, old(State()), MaxDispatchPerTick)
      {
        ghost var s0 := State();
        InvLists(c, s0);
        var served := TryDispatchClass(true);
        InvLists(c, State());
        if !served { served := TryDispatchClass(false); }
        assert (State(), served) == Round(s0);
        n := if served then n - 1 else 0;
      }
    }

    /** `delay` is the time the admin requests take. */
    method OnTick(now: nat, delay: nat)
      requires Valid()
      modifies this
      ensures Valid() && old(Valid()) && State() == Tick(c, old(State()), now, delay)
    {
      hide Inv, DrainAdmin, Refill, Resume, RunCallbacks, RunIsc, Rounds;
      var at := if adminQueue == [] then now else now + delay;
      InvSetup(c, State());
      DrainAdminKeeps(c, State());
      DispatchAdmin();
      RefillDue(at);
      ResumeDeferred();
      ResumeCallbacks();
      ProcessIscRequests();
      DispatchRounds();
    }
  }

  lemma TotalsWeights(r: Rate, users: Users, order: seq<nat>)
    requires r.Valid() && AllSound(users) && Lists(order, users)
    ensures TotalsOf(r, users, order).sloWeight == WeightSum(users, order, true)
    ensures TotalsOf(r, users, order).restWeight == WeightSum(users, order, false)
  {
  }

  lemma GuaranteedKeys(t: Totals, was: Users, users: Users)
    requires t.Valid() && AllSound(was) && GuaranteedDone(t, was, users)
    ensures users.Keys == was.Keys
  {
  }

  lemma EnrollLeaves(c: Setup, s: Books, u: nat)
    requires c.Valid()
    ensures var r := Enroll(c, s, u); r == s.(users := r.users, order := r.order, granted := r.granted)
  {
  }

  lemma ActivateLeaves(c: Setup, s: Books, u: nat, now: nat)
    requires c.Valid() && u in s.users
    ensures var r := Activate(c, s, u, now); r == s.(users := r.users, next := r.next, started := r.started)
  {
  }

  lemma ScanVisit(s: Books, isc: bool, i: nat, left: nat)
    requires Lists(s.order, s.users) && 0 < left <= |s.order|
    ensures var k := if i >= |s.order| then 0 else i;
            var r := TryHead(s, s.order[k], isc);
            Scan(s, isc, i, left) == if r.1 then (r.0, true) else Scan(r.0, isc, k + 1, left - 1)
    ensures var k := if i >= |s.order| then 0 else i;
            s.order[k] in s.users && TryHead(s, s.order[k], isc).0.order == s.order
  {
    hide TryHead;
  }

  lemma ScanEnd(s: Books, isc: bool, i: nat)
    requires Lists(s.order, s.users)
    ensures Scan(s, isc, i, 0) == (s, false)
  {
  }

  lemma CallbackLength(c: Setup, s: Books)
    requires c.Valid() && s.callbacks != []
    ensures |CallbackStep(c, s).callbacks| >= |s.callbacks| - 1
  {
    hide Paid;
  }

  lemma IscLength(c: Setup, s: Books)
    requires c.Valid() && s.isc != []
    ensures |IscStep(c, s).isc| >= |s.isc| - 1
  {
    hide Paid;
  }

  lemma HeadRegistered(c: Setup, s: Books)
    requires Inv(c, s) && s.deferred != []
    ensures s.deferred[0].req.uid in s.users
  {
  }

  lemma PhaseFacts(c: Setup, s: Books)
    requires Inv(c, s)
    ensures c.Valid() && AllSound(s.users) && Registered(s.users, s.order) && s.granted.Keys == s.users.Keys
    ensures Inv(c, Phase(c, s)) && Boundary(c, s) == Phase(c, s)
  {
    PhaseKeeps(c, s);
  }

  lemma ResetIs(s: Books)
    requires Lists(s.order, s.users)
    ensures var r := Reset(s);
            r == s.(users := AllCleared(s.users), admin := [], lastHost := 0, next := 0, log := [],
                    granted := r.granted, submitted := r.submitted, tasks := r.tasks)
  {
    hide AllCleared, Queued, Requests;
  }

  lemma SubmitIs(c: Setup, s: Books, r: Request, now: nat)
    requires c.Valid()
    ensures r.uid == 0 ==> Submit(c, s, r, now) == s.(admin := s.admin + [r], submitted := s.submitted + multiset{r})
    ensures r.uid != 0 ==>
              Submit(c, s, r, now) == Activate(c, Enqueued(Enroll(c, s, r.uid), r), r.uid, now)
  {
    hide Activate;
  }

  /** An account without the head of one of its queues. */
  function Popped(a: Account, isc: bool): (b: Account)
    requires (if isc then a.queueIsc else a.queue) != []
    ensures b.credit == a.credit
  {
    if isc then a.(queueIsc := a.queueIsc[1..]) else a.(queue := a.queue[1..])
  }

  lemma TryHeadIs(s: Books, u: nat, isc: bool)
    requires u in s.users
    ensures var a := s.users[u];
            var q := if isc then a.queueIsc else a.queue;
            if q == [] then TryHead(s, u, isc) == (s, false)
            else if Pages(q[0]) <= a.credit then
              TryHead(s, u, isc) ==
              (s.(users := s.users[u := Paid(Popped(a, isc), Pages(q[0]), if isc then ForIsc else PurposeOf(q[0]))],
                  log := s.log + [Served(q[0])],
                  lastIsc := if isc then u else s.lastIsc, lastHost := if isc then s.lastHost else u), true)
            else
              TryHead(s, u, isc) ==
              (s.(users := s.users[u := Popped(a, isc)], deferred := s.deferred + [Deferred(q[0], Pages(q[0]))]), false)
  {
    hide Pages, Paid;
  }

  /** The end of submitISCRequest. */
  function Started(s: Books, w: Work): Books
    requires w.uid in s.users
  {
    var s1 := s.(tasks := s.tasks + multiset{w});
    var a := s1.users[w.uid];
    if w.pages <= a.credit then Put(s1, w.uid, Paid(a, w.pages, ForIsc)).(log := s1.log + [Worked(w)])
    else s1.(isc := s1.isc + [w])
  }

  lemma SubmitIscIs(c: Setup, s: Books, w: Work, now: nat)
    requires c.Valid()
    ensures SubmitIsc(c, s, w, now) == Started(Activate(c, Enroll(c, s, w.uid), w.uid, now), w)
  {
    hide Enroll, Activate, Paid;
    EnrollLeaves(c, s, w.uid);
    ActivateLeaves(c, Enroll(c, s, w.uid), w.uid, now);
  }

  lemma ClearedIs(a: Account)
    ensures Cleared(a) == a.(credit := 0, carry := 0.0, consumed := 0, consumedHost := 0, consumedIsc := 0,
                             active := false, gates := 0, queueIsc := [])
  {
  }

  lemma InvOrder(c: Setup, s: Books)
    requires Inv(c, s)
    ensures Registered(s.users, s.order)
  {
  }

  lemma BlankIsValid(c: Setup)
    requires c.Valid()
    ensures Inv(c, Blank)
  {
  }

  lemma InitialSteps(c: Setup)
    requires c.Valid()
    ensures Initial(c) == Enroll(c, Enroll(c, Enroll(c, Blank, 1001), 1002), 1003)
  {
  }
}
