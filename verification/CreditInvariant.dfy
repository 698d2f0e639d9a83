/** Every operation of the credit scheduler keeps the books. */
module CreditInvariant {
  import opened CreditMath
  import opened CreditLedger

  // ----- conservation ---------------------------------------------------------------------------------

  lemma PopBag(a: Account, isc: bool)
    requires (if isc then a.queueIsc else a.queue) != []
    ensures var q := if isc then a.queueIsc else a.queue;
            var b := if isc then a.(queueIsc := q[1..]) else a.(queue := q[1..]);
            Bag(a) == Bag(b) + multiset{q[0]}
  {
    var q := if isc then a.queueIsc else a.queue;
    assert q == [q[0]] + q[1..];
  }

  /** A request leaves a queue of account u: a replaces the account. */
  lemma QueuedLoses(users: Users, order: seq<nat>, u: nat, a: Account, one: multiset<Request>)
    requires Registered(users, order) && u in users && Bag(users[u]) == Bag(a) + one
    ensures Queued(users, order) == Queued(users[u := a], order) + one
  {
    hide Queued, Bag;
    ChangeQueued(users, order, u, a);
    var x, y := Queued(users[u := a], order), Queued(users, order);
    assert x + (Bag(a) + one) == y + Bag(a);
    assert (x + one) + Bag(a) == y + Bag(a);
    assert y == (y + Bag(a)) - Bag(a) == ((x + one) + Bag(a)) - Bag(a) == x + one;
  }

  lemma LeaveQueue(s: Books, u: nat, a: Account, r: Request)
    requires Conserved(s) && Registered(s.users, s.order) && u in s.users && Bag(s.users[u]) == Bag(a) + multiset{r}
    ensures Conserved(Put(s, u, a).(log := s.log + [Served(r)]))
  {
    hide Queued, Left, Finished, Bag, Requests, Sum4, Registered;
    QueuedLoses(s.users, s.order, u, a, multiset{r});
    LogOne(s.log, Served(r));
    assert Finished(s.log) + multiset{} == Finished(s.log);
    Sum4Move(multiset(s.admin), Queued(s.users[u := a], s.order), multiset(Requests(s.deferred)), Left(s.log),
        multiset{r});
  }

  lemma RequestsSnoc(d: seq<Deferred>, x: Deferred)
    ensures multiset(Requests(d + [x])) == multiset(Requests(d)) + multiset{x.req}
  {
    assert Requests(d + [x]) == Requests(d) + [x.req];
  }

  lemma RequestsTail(d: seq<Deferred>)
    requires d != []
    ensures multiset(Requests(d)) == multiset(Requests(d[1..])) + multiset{d[0].req}
  {
    assert Requests(d) == [d[0].req] + Requests(d[1..]);
  }

  lemma DeferFromQueue(s: Books, u: nat, a: Account, d: Deferred)
    requires Conserved(s) && Registered(s.users, s.order) && u in s.users && Bag(s.users[u]) == Bag(a) + multiset{d.req}
    ensures Conserved(Put(s, u, a).(deferred := s.deferred + [d]))
  {
    hide Queued, Left, Finished, Bag, Requests, Sum4, Registered;
    QueuedLoses(s.users, s.order, u, a, multiset{d.req});
    RequestsSnoc(s.deferred, d);
    Sum4Move(multiset(s.admin), Queued(s.users[u := a], s.order), multiset(Requests(s.deferred)), Left(s.log),
        multiset{d.req});
  }

  lemma SameBag(s: Books, u: nat, a: Account)
    requires Conserved(s) && Registered(s.users, s.order) && u in s.users && Bag(s.users[u]) == Bag(a)
    ensures Conserved(Put(s, u, a))
  {
    hide Queued, Left, Finished, Bag, Requests, Sum4, Registered;
    assert Bag(a) + multiset{} == Bag(a);
    QueuedLoses(s.users, s.order, u, a, multiset{});
    assert Queued(s.users[u := a], s.order) + multiset{} == Queued(s.users[u := a], s.order);
  }

  // ----- users ------------------------------------------------------------------------------------------

  lemma NewUserSums(users: Users, order: seq<nat>, u: nat, a: Account)
    requires Lists(order, users) && u !in order && a.carry == 0.0 && a.queue == a.queueIsc == []
    ensures CarrySum(users[u := a], order + [u]) == CarrySum(users, order)
    ensures Queued(users[u := a], order + [u]) == Queued(users, order)
  {
    OthersOnly(users, order, u, a);
    assert (order + [u])[..|order|] == order;
    assert Bag(a) == multiset{};
  }

  lemma EnrollKeeps(c: Setup, s: Books, u: nat)
    requires Inv(c, s)
    ensures Inv(c, Enroll(c, s, u))
  {
    hide Queued, CarrySum, Left, Finished, ChargedTo, Sum4, Requests;
    if u !in s.users {
      NewUserSums(s.users, s.order, u, NewAccount(c, u));
      NewUserBooks(c, s, u);
    }
  }

  lemma NewAccountOk(c: Setup, u: nat)
    requires c.Valid()
    ensures Sound(NewAccount(c, u)) && AccountOk(c.rate, u, NewAccount(c, u))
  {
  }

  lemma NewUserListed(users: Users, order: seq<nat>, u: nat, a: Account)
    requires Registered(users, order) && u !in users
    ensures Registered(users[u := a], order + [u])
  {
    assert (order + [u])[|order|] == u;
    assert forall v :: v in users ==> v in order + [u];
  }

  lemma NewUserBooks(c: Setup, s: Books, u: nat)
    requires c.Valid() && Registered(s.users, s.order) && AccountsOk(c.rate, s.users)
    requires Balanced(s.users, s.granted, s.log)
    requires u !in s.users
    ensures var s' := Enroll(c, s, u);
            Registered(s'.users, s'.order) && AccountsOk(c.rate, s'.users) && Balanced(s'.users, s'.granted, s'.log)
  {
    hide ChargedTo, Sound, AccountOk, Registered;
    NewAccountOk(c, u);
    NewUserListed(s.users, s.order, u, NewAccount(c, u));
  }

  lemma BalancedPut(users: Users, granted: map<nat, nat>, log: seq<Entry>, u: nat, a: Account)
    requires Balanced(users, granted, log) && u in users && a.credit == users[u].credit
    requires a.consumed == users[u].consumed
    ensures Balanced(users[u := a], granted, log)
  {
    hide ChargedTo;
  }

  lemma ActivateKeeps(c: Setup, s: Books, u: nat, now: nat)
    requires Inv(c, s) && u in s.users
    ensures Inv(c, Activate(c, s, u, now))
  {
    hide Registered, Within, DeferredOk, Conserved, Balanced;
    if !s.users[u].active {
      var a := s.users[u].(active := true, credit := 0);
      PutKeeps(c, s, u, a);
      BalancedPut(s.users, s.granted, s.log, u, a);
      SameBag(s, u, a);
      Rename(Put(s, u, a), Activate(c, s, u, now));
    }
  }

  /** Conservation does not depend on the timer. */
  lemma Rename(s1: Books, s2: Books)
    requires Conserved(s1) && s2 == s1.(next := s2.next, started := s2.started)
    ensures Conserved(s2)
  {
  }

  // ----- requests and work --------------------------------------------------------------------------------

  lemma EntersQueue(s: Books, u: nat, a: Account, r: Request)
    requires Conserved(s) && Registered(s.users, s.order) && u in s.users && Bag(a) == Bag(s.users[u]) + multiset{r}
    ensures Conserved(Put(s, u, a).(submitted := s.submitted + multiset{r}))
  {
    hide Queued, Left, Finished, Bag, Requests, Sum4, Registered;
    var users := s.users[u := a];
    assert users[u := s.users[u]] == s.users;
    RegisteredPut(s.users, s.order, u, a);
    QueuedLoses(users, s.order, u, s.users[u], multiset{r});
    Sum4Move(multiset(s.admin), Queued(s.users, s.order), multiset(Requests(s.deferred)), Left(s.log), multiset{r});
  }

  lemma RegisteredPut(users: Users, order: seq<nat>, u: nat, a: Account)
    requires Registered(users, order) && u in users
    ensures Registered(users[u := a], order)
  {
  }

  lemma Append<T>(s: seq<T>, x: T)
    ensures multiset(s + [x]) == multiset(s) + multiset{x}
  {
  }

  lemma Tail<T>(s: seq<T>)
    requires s != []
    ensures multiset(s) == multiset(s[1..]) + multiset{s[0]}
  {
    assert s == [s[0]] + s[1..];
  }

  lemma AdminEnters(s: Books, r: Request)
    requires Conserved(s)
    ensures Conserved(s.(admin := s.admin + [r], submitted := s.submitted + multiset{r}))
  {
    hide Queued, Left, Finished, Requests, Sum4;
    Append(s.admin, r);
    Sum4Move(multiset(s.admin), Queued(s.users, s.order), multiset(Requests(s.deferred)), Left(s.log), multiset{r});
  }

  lemma SubmitKeeps(c: Setup, s: Books, r: Request, now: nat)
    requires Inv(c, s)
    ensures Inv(c, Submit(c, s, r, now))
  {
    hide Registered, AccountsOk, Within, DeferredOk, Conserved, Balanced;
    if r.uid == 0 {
      AdminEnters(s, r);
    } else {
      EnrollKeeps(c, s, r.uid);
      var s1 := Enroll(c, s, r.uid);
      EnqueueKeeps(c, s1, r);
      ActivateKeeps(c, Enqueued(s1, r), r.uid, now);
      assert s1.submitted == s.submitted;
    }
  }

  /** submitRequest between getOrCreateUser and the activation. */
  function Enqueued(s: Books, r: Request): Books
    requires r.uid in s.users
  {
    var a := s.users[r.uid];
    var b := if IsGate(r) then a.(gates := a.gates + (if r.op == CreditOnly then 1 else 0),
        queueIsc := [r] + a.queueIsc)
             else a.(queue := a.queue + [r]);
    Put(s, r.uid, b).(submitted := s.submitted + multiset{r})
  }

  lemma EnqueueKeeps(c: Setup, s: Books, r: Request)
    requires Inv(c, s) && r.uid in s.users
    ensures Inv(c, Enqueued(s, r))
  {
    hide Registered, Within, DeferredOk, Conserved, Balanced, Queued;
    var a := s.users[r.uid];
    var b := Enqueued(s, r).users[r.uid];
    assert Bag(b) == Bag(a) + multiset{r};
    RequeueKeeps(c, s, r.uid, b);
    EntersQueue(s, r.uid, b, r);
  }

  lemma TakeKeeps(c: Setup, s: Books, u: nat, used: nat, why: Purpose)
    requires Inv(c, s)
    ensures Inv(c, Take(c, s, u, used, why))
  {
    hide Registered, Within, DeferredOk, Conserved, Balanced, Queued;
    EnrollKeeps(c, s, u);
    var s1 := Enroll(c, s, u);
    var n := Min(used, s1.users[u].credit);
    PayKeeps(c, s1, u, s1.users[u], n, why, Taken(u, n));
    SameBag(s1, u, Paid(s1.users[u], n, why));
    LogOther(Put(s1, u, Paid(s1.users[u], n, why)), Taken(u, n));
  }

  lemma LogOther(s: Books, e: Entry)
    requires Conserved(s) && e.Taken?
    ensures Conserved(s.(log := s.log + [e]))
  {
    hide Queued, Left, Finished, Requests, Sum4;
    LogOne(s.log, e);
    assert Left(s.log) + multiset{} == Left(s.log) && Finished(s.log) + multiset{} == Finished(s.log);
  }

  /** Work that was waiting at the head of a queue is carried out. */
  lemma WorkLeaves(s: Books, s': Books, w: Work)
    requires Conserved(s)
    requires s' == s.(callbacks := s'.callbacks, isc := s'.isc, log := s.log + [Worked(w)], tasks := s'.tasks)
    requires (s.callbacks == [w] + s'.callbacks && s'.isc == s.isc && s'.tasks == s.tasks)
          || (s.isc == [w] + s'.isc && s'.callbacks == s.callbacks && s'.tasks == s.tasks)
          || (s.isc == s'.isc && s'.callbacks == s.callbacks && s'.tasks == s.tasks + multiset{w})
    ensures Conserved(s')
  {
    hide Queued, Left, Finished, Requests, Sum4;
    LogOne(s.log, Worked(w));
    assert Left(s.log) + multiset{} == Left(s.log);
    Sum4Move(multiset(s'.callbacks), multiset(s'.isc), Finished(s.log), multiset{}, multiset{w});
    assert multiset([w] + s'.callbacks) == multiset(s'.callbacks) + multiset{w};
    assert multiset([w] + s'.isc) == multiset(s'.isc) + multiset{w};
  }

  /** Work is queued, or moves to the back of its queue. */
  lemma WorkWaits(s: Books, s': Books, w: Work)
    requires Conserved(s) && s' == s.(callbacks := s'.callbacks, isc := s'.isc, tasks := s'.tasks)
    requires var before, after := multiset(s.callbacks), multiset(s'.callbacks);
             var queued, queued' := multiset(s.isc), multiset(s'.isc);
             || (after == before + multiset{w} && s'.isc == s.isc && s'.tasks == s.tasks + multiset{w})
             || (queued' == queued + multiset{w} && s'.callbacks == s.callbacks && s'.tasks == s.tasks + multiset{w})
             || (after == before && queued' == queued && s'.tasks == s.tasks)
    ensures Conserved(s')
  {
    hide Queued, Left, Finished, Requests, Sum4;
    Sum4Move(multiset(s.callbacks), multiset(s.isc), Finished(s.log), multiset{}, multiset{w});
  }

  lemma SubmitCallbackKeeps(c: Setup, s: Books, w: Work)
    requires Inv(c, s)
    ensures Inv(c, SubmitCallback(s, w))
  {
    hide Registered, AccountsOk, Within, Conserved, Balanced;
    Append(s.callbacks, w);
    WorkWaits(s, SubmitCallback(s, w), w);
  }

  /** A user pays for work and the work is done. */
  lemma PayWork(c: Setup, s: Books, s': Books, w: Work)
    requires Inv(c, s) && w.uid in s.users && w.pages <= s.users[w.uid].credit
    requires s' == Put(s, w.uid, Paid(s.users[w.uid], w.pages, ForIsc)).(
                     log := s.log + [Worked(w)], callbacks := s'.callbacks, isc := s'.isc, tasks := s'.tasks)
    requires (s.callbacks == [w] + s'.callbacks && s'.isc == s.isc && s'.tasks == s.tasks)
          || (s.isc == [w] + s'.isc && s'.callbacks == s.callbacks && s'.tasks == s.tasks)
          || (s.isc == s'.isc && s'.callbacks == s.callbacks && s'.tasks == s.tasks + multiset{w})
    ensures Inv(c, s')
  {
    hide Registered, Within, DeferredOk, Conserved, Balanced;
    var a := Paid(s.users[w.uid], w.pages, ForIsc);
    PayKeeps(c, s, w.uid, s.users[w.uid], w.pages, ForIsc, Worked(w));
    SameBag(s, w.uid, a);
    WorkLeaves(Put(s, w.uid, a), s', w);
  }

  lemma SubmitIscKeeps(c: Setup, s: Books, w: Work, now: nat)
    requires Inv(c, s)
    ensures Inv(c, SubmitIsc(c, s, w, now))
  {
    hide Registered, AccountsOk, Within, DeferredOk, Conserved, Balanced;
    EnrollKeeps(c, s, w.uid);
    ActivateKeeps(c, Enroll(c, s, w.uid), w.uid, now);
    var s1 := Activate(c, Enroll(c, s, w.uid), w.uid, now);
    if w.pages <= s1.users[w.uid].credit {
      PayWork(c, s1, SubmitIsc(c, s, w, now), w);
    } else {
      Append(s1.isc, w);
      WorkWaits(s1, SubmitIsc(c, s, w, now), w);
    }
  }

  lemma SetTargetKeeps(c: Setup, s: Books, u: nat, target: Target)
    requires Inv(c, s) && (target.Iops? ==> 0.0 <= target.pages)
    ensures Inv(c, SetTarget(c, s, u, target))
  {
    hide Registered, Within, DeferredOk, Conserved, Balanced, Queued;
    EnrollKeeps(c, s, u);
    var s1 := Enroll(c, s, u);
    var a := SetTarget(c, s, u, target).users[u];
    PutKeeps(c, s1, u, a);
    BalancedPut(s1.users, s1.granted, s1.log, u, a);
    SameBag(s1, u, a);
  }

  // ----- tick ---------------------------------------------------------------------------------------------

  lemma AdminLeaves(s: Books)
    requires Conserved(s) && s.admin != []
    ensures Conserved(s.(admin := s.admin[1..], log := s.log + [Admin(s.admin[0])]))
  {
    hide Queued, Left, Finished, Requests, Sum4;
    var r := s.admin[0];
    LogOne(s.log, Admin(r));
    Tail(s.admin);
    assert Finished(s.log) + multiset{} == Finished(s.log);
    Sum4Move(multiset(s.admin[1..]), Queued(s.users, s.order), multiset(Requests(s.deferred)), Left(s.log),
        multiset{r});
  }

  lemma BalancedFree(users: Users, granted: map<nat, nat>, log: seq<Entry>, e: Entry)
    requires Balanced(users, granted, log) && e.Charge() == 0
    ensures Balanced(users, granted, log + [e])
  {
    hide ChargedTo;
    LogOne(log, e);
  }

  lemma AdminStepKeeps(c: Setup, s: Books)
    requires c.Valid() && Inv(c, s) && s.admin != []
    ensures Inv(c, s.(admin := s.admin[1..], log := s.log + [Admin(s.admin[0])]))
    ensures Inv(c, AdminStep(c, s))
  {
    hide Registered, AccountsOk, Within, Conserved, Balanced;
    var r := s.admin[0];
    var s1 := s.(admin := s.admin[1..], log := s.log + [Admin(r)]);
    AdminLeaves(s);
    BalancedFree(s.users, s.granted, s.log, Admin(r));
    EnrollKeeps(c, s1, r.uid);
  }

  lemma {:induction false} DrainAdminKeeps(c: Setup, s: Books)
    requires c.Valid() && Inv(c, s)
    ensures Inv(c, DrainAdmin(c, s)) && DrainAdmin(c, s).admin == []
    decreases |s.admin|
  {
    hide Inv, AdminStep;
    if s.admin != [] {
      AdminStepKeeps(c, s);
      DrainAdminKeeps(c, AdminStep(c, s));
    }
  }

  function AsAdmin(rs: seq<Request>): seq<Entry> {
    seq(|rs|, i requires 0 <= i < |rs| => Admin(rs[i]))
  }

  /** The admin requests leave in the order in which they came, before anything else of the tick, and only
      they do; no account pays. */
  lemma {:induction false} DrainAdminLeavesInOrder(c: Setup, s: Books)
    requires c.Valid()
    ensures var r := DrainAdmin(c, s);
            && r.log == s.log + AsAdmin(s.admin)
            && r.deferred == s.deferred && r.callbacks == s.callbacks && r.isc == s.isc
            && (forall u :: u in s.users ==> u in r.users && r.users[u] == s.users[u])
    decreases |s.admin|
  {
    hide AdminStep;
    if s.admin == [] {
      assert s.log + AsAdmin(s.admin) == s.log;
    } else {
      AdminStepLeaves(c, s);
      DrainAdminLeavesInOrder(c, AdminStep(c, s));
      assert AsAdmin(s.admin) == [Admin(s.admin[0])] + AsAdmin(s.admin[1..]);
    }
  }

  lemma AdminStepLeaves(c: Setup, s: Books)
    requires c.Valid() && s.admin != []
    ensures var r := AdminStep(c, s);
            && r.log == s.log + [Admin(s.admin[0])]
            && r.deferred == s.deferred && r.callbacks == s.callbacks && r.isc == s.isc
            && (forall u :: u in s.users ==> u in r.users && r.users[u] == s.users[u])
  {
  }

  lemma {:induction false} PhaseKeepsQueued(t: Totals, users: Users, order: seq<nat>)
    requires t.Valid() && AllSound(users) && Lists(order, users)
    ensures Queued(AllAfterPhase(t, users), order) == Queued(users, order)
    decreases |order|
  {
    hide AfterPhase, Sound;
    if order != [] {
      AfterPhaseIsSound(t, users[order[|order| - 1]]);
      PhaseKeepsQueued(t, users, order[..|order| - 1]);
    }
  }

  lemma PhaseKeepsAccounts(c: Setup, s: Books)
    requires Inv(c, s)
    ensures var s' := Phase(c, s);
            Registered(s'.users, s'.order) && AccountsOk(c.rate, s'.users) && Balanced(s'.users, s'.granted, s'.log)
  {
    hide ChargedTo, Within, Conserved, AfterPhase, Sound, TotalsOf;
    var t := TotalsOf(c.rate, s.users, s.order);
    forall u | u in s.users
      ensures var a, b := s.users[u], AfterPhase(t, s.users[u]);
              Sound(b) && a.credit <= b.credit && b == a.(credit := b.credit, carry := b.carry)
    {
      AfterPhaseIsSound(t, s.users[u]);
    }
  }

  lemma BudgetGrows(r: Rate, phases: nat)
    ensures Times(phases + 1, r.budget) == Times(phases, r.budget) + r.budget
  {
  }

  lemma PhaseKeeps(c: Setup, s: Books)
    requires Inv(c, s)
    ensures Inv(c, Phase(c, s))
  {
    hide ChargedTo, AfterPhase, Queued, CarrySum, GrantSum, TotalsOf, AllAfterPhase;
    hide Left, Finished, Requests, Sum4, Times, Balanced, Sound;
    PhaseKeepsAccounts(c, s);
    PhaseWithinBudget(c.rate, s.users, s.order);
    PhaseKeepsQueued(TotalsOf(c.rate, s.users, s.order), s.users, s.order);
    BudgetGrows(c.rate, s.phases);
  }

  lemma DeferredLeaves(s: Books)
    requires Conserved(s) && s.deferred != []
    ensures Conserved(s.(deferred := s.deferred[1..], log := s.log + [Served(s.deferred[0].req)]))
  {
    hide Queued, Left, Finished, Requests, Sum4;
    var d := s.deferred[0];
    RequestsTail(s.deferred);
    LogOne(s.log, Served(d.req));
    assert Finished(s.log) + multiset{} == Finished(s.log);
    Sum4Move(multiset(s.admin), Queued(s.users, s.order), multiset(Requests(s.deferred[1..])), Left(s.log),
        multiset{d.req});
  }

  lemma DeferredRotates(s: Books)
    requires Conserved(s) && s.deferred != []
    ensures Conserved(s.(deferred := s.deferred[1..] + [s.deferred[0]]))
  {
    hide Queued, Left, Finished, Requests, Sum4;
    RequestsTail(s.deferred);
    RequestsSnoc(s.deferred[1..], s.deferred[0]);
  }

  lemma ResumeStepKeeps(c: Setup, s: Books)
    requires Inv(c, s) && s.deferred != []
    ensures Inv(c, ResumeStep(s))
  {
    hide Registered, Within, Balanced, Conserved, AccountOk, Sound;
    var d := s.deferred[0];
    if d.req.uid in s.users && d.pages <= s.users[d.req.uid].credit {
      var a := Paid(s.users[d.req.uid], d.pages, PurposeOf(d.req));
      PayKeeps(c, s, d.req.uid, s.users[d.req.uid], d.pages, PurposeOf(d.req), Served(d.req));
      SameBag(s, d.req.uid, a);
      DeferredLeaves(Put(s, d.req.uid, a));
    } else {
      DeferredRotates(s);
    }
  }

  lemma {:induction false} ResumeKeeps(c: Setup, s: Books, n: nat)
    requires Inv(c, s)
    ensures Inv(c, Resume(s, n))
    decreases n
  {
    hide Inv, ResumeStep;
    if n > 0 && s.deferred != [] {
      ResumeStepKeeps(c, s);
      ResumeKeeps(c, ResumeStep(s), n - 1);
    }
  }

  lemma Rotated<T>(s: seq<T>)
    requires s != []
    ensures multiset(s[1..] + [s[0]]) == multiset(s) && s == [s[0]] + s[1..]
  {
    assert s == [s[0]] + s[1..];
  }

  lemma CallbackStepKeeps(c: Setup, s: Books)
    requires c.Valid() && Inv(c, s) && s.callbacks != []
    ensures Inv(c, CallbackStep(c, s))
  {
    hide Registered, AccountsOk, Within, DeferredOk, Conserved, Balanced;
    var w := s.callbacks[0];
    EnrollKeeps(c, s, w.uid);
    var s1 := Enroll(c, s, w.uid);
    Rotated(s1.callbacks);
    if w.pages <= s1.users[w.uid].credit {
      PayWork(c, s1, CallbackStep(c, s), w);
    } else {
      WorkWaits(s1, CallbackStep(c, s), w);
    }
  }

  lemma {:induction false} RunCallbacksKeeps(c: Setup, s: Books, n: nat)
    requires c.Valid() && Inv(c, s)
    ensures Inv(c, RunCallbacks(c, s, n))
    decreases n
  {
    hide Inv, CallbackStep;
    if n > 0 && s.callbacks != [] {
      CallbackStepKeeps(c, s);
      RunCallbacksKeeps(c, CallbackStep(c, s), n - 1);
    }
  }

  lemma IscStepKeeps(c: Setup, s: Books)
    requires c.Valid() && Inv(c, s) && s.isc != []
    ensures Inv(c, IscStep(c, s))
  {
    hide Registered, AccountsOk, Within, DeferredOk, Conserved, Balanced;
    var w := s.isc[0];
    EnrollKeeps(c, s, w.uid);
    var s1 := Enroll(c, s, w.uid);
    Rotated(s1.isc);
    if w.pages <= s1.users[w.uid].credit {
      PayWork(c, s1, IscStep(c, s), w);
    } else {
      WorkWaits(s1, IscStep(c, s), w);
    }
  }

  lemma {:induction false} RunIscKeeps(c: Setup, s: Books, n: nat)
    requires c.Valid() && Inv(c, s)
    ensures Inv(c, RunIsc(c, s, n))
    decreases n
  {
    hide Inv, IscStep;
    if n > 0 && s.isc != [] {
      IscStepKeeps(c, s);
      RunIscKeeps(c, IscStep(c, s), n - 1);
    }
  }

  lemma PoppedOk(r: Rate, u: nat, a: Account, isc: bool)
    requires r.Valid() && AccountOk(r, u, a) && (if isc then a.queueIsc else a.queue) != []
    ensures var q := if isc then a.queueIsc else a.queue;
            q[0].uid == u && AccountOk(r, u, if isc then a.(queueIsc := q[1..]) else a.(queue := q[1..]))
  {
  }

  lemma TryHeadKeeps(c: Setup, s: Books, u: nat, isc: bool)
    requires Inv(c, s) && u in s.users
    ensures Inv(c, TryHead(s, u, isc).0)
  {
    hide Registered, Within, Conserved, Balanced, AccountOk, Sound, Bag;
    var a := s.users[u];
    var q := if isc then a.queueIsc else a.queue;
    if q != [] {
      var r := q[0];
      var b := if isc then a.(queueIsc := q[1..]) else a.(queue := q[1..]);
      PoppedOk(c.rate, u, a, isc);
      PopBag(a, isc);
      if Pages(r) <= a.credit {
        var why := if isc then ForIsc else PurposeOf(r);
        PayKeeps(c, s, u, b, Pages(r), why, Served(r));
        PaidBag(b, Pages(r), why);
        LeaveQueue(s, u, Paid(b, Pages(r), why), r);
        InvWheel(c, Put(s, u, Paid(b, Pages(r), why)).(log := s.log + [Served(r)]), TryHead(s, u, isc).0);
      } else {
        RequeueKeeps(c, s, u, b);
        DeferFromQueue(s, u, b, Deferred(r, Pages(r)));
      }
    }
  }

  lemma PaidBag(a: Account, n: nat, why: Purpose)
    requires n <= a.credit
    ensures Bag(Paid(a, n, why)) == Bag(a)
  {
  }

  /** The books do not depend on whose turn it is. */
  lemma InvWheel(c: Setup, s: Books, s': Books)
    requires Sums(c, s) && Conserved(s) && s' == s.(lastHost := s'.lastHost, lastIsc := s'.lastIsc)
    ensures Inv(c, s')
  {
  }

  lemma InvSetup(c: Setup, s: Books)
    requires Inv(c, s)
    ensures c.Valid()
  {
  }

  lemma InvLists(c: Setup, s: Books)
    requires Inv(c, s)
    ensures c.Valid() && Lists(s.order, s.users)
  {
  }

  lemma {:induction false} ScanKeeps(c: Setup, s: Books, isc: bool, i: nat, left: nat)
    requires Inv(c, s) && Lists(s.order, s.users)
    ensures Inv(c, Scan(s, isc, i, left).0)
    decreases left
  {
    hide Inv, TryHead;
    if left > 0 && s.order != [] {
      var k := if i >= |s.order| then 0 else i;
      TryHeadKeeps(c, s, s.order[k], isc);
      var r := TryHead(s, s.order[k], isc);
      InvLists(c, r.0);
      if !r.1 { ScanKeeps(c, r.0, isc, k + 1, left - 1); }
    }
  }
}
