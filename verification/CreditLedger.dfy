/** The books of the credit scheduler: where every request is, and where every granted page went. */
module CreditLedger {
  import opened CreditMath

  /** Work of the in-storage computing side: pages to pay for before a callback runs. */
  datatype Work = Work(uid: nat, pages: nat, context: int)

  datatype Deferred = Deferred(req: Request, pages: nat)

  /** What has left the scheduler, or was taken from an account directly. */
  datatype Entry = Admin(req: Request) | Served(req: Request) | Worked(work: Work) | Taken(uid: nat, pages: nat) {
    function Owner(): nat {
      match this
      case Admin(r) => r.uid
      case Served(r) => r.uid
      case Worked(w) => w.uid
      case Taken(u, _) => u
    }

    /** Admin requests are free, requests cost their pages rounded up, work costs what it asked for. */
    function Charge(): nat {
      match this
      case Admin(_) => 0
      case Served(r) => Pages(r)
      case Worked(w) => w.pages
      case Taken(_, n) => n
    }
  }

  function ChargedTo(log: seq<Entry>, u: nat): nat {
    if log == [] then 0
    else
      var e := log[|log| - 1];
      ChargedTo(log[..|log| - 1], u) + if e.Owner() == u then e.Charge() else 0
  }

  /** Requests that have left. */
  function Left(log: seq<Entry>): multiset<Request> {
    if log == [] then multiset{}
    else
      var e := log[|log| - 1];
      Left(log[..|log| - 1]) + if e.Admin? || e.Served? then multiset{e.req} else multiset{}
  }

  /** Work that has been carried out. */
  function Finished(log: seq<Entry>): multiset<Work> {
    if log == [] then multiset{}
    else
      var e := log[|log| - 1];
      Finished(log[..|log| - 1]) + if e.Worked? then multiset{e.work} else multiset{}
  }

  lemma LogOne(log: seq<Entry>, e: Entry)
    ensures forall u :: ChargedTo(log + [e], u) == ChargedTo(log, u) + if e.Owner() == u then e.Charge() else 0
    ensures Left(log + [e]) == Left(log) + if e.Admin? || e.Served? then multiset{e.req} else multiset{}
    ensures Finished(log + [e]) == Finished(log) + if e.Worked? then multiset{e.work} else multiset{}
  {
    assert (log + [e])[..|log|] == log;
  }

  /** Requests waiting in an account's two queues. */
  function Bag(a: Account): multiset<Request> {
    multiset(a.queue) + multiset(a.queueIsc)
  }

  /** Requests waiting in all accounts' queues. */
  function Queued(users: Users, order: seq<nat>): multiset<Request>
    requires Lists(order, users)
  {
    if order == [] then multiset{}
    else
      var a := users[order[|order| - 1]];
      Queued(users, order[..|order| - 1]) + Bag(a)
  }

  function Requests(d: seq<Deferred>): seq<Request> {
    seq(|d|, i requires 0 <= i < |d| => d[i].req)
  }

  // ----- the scheduler's state ------------------------------------------------------------------------

  /** The rate, the period in ticks, and which users belong to the guaranteed class. */
  datatype Setup = Setup(rate: Rate, period: nat, slo: set<nat>) {
    predicate Valid() {
      rate.Valid() && 0 < period
    }
  }

  /** The fields of CreditScheduler (`order` is the iteration order of `users`, `next` is
      lastGlobalRefillTick_), and a record of what happened: pages granted to each user since the last
      reset, pages granted ever, phases run ever, what left, and what was submitted since the last reset. */
  datatype Books = Books(
    users: Users, order: seq<nat>, admin: seq<Request>, deferred: seq<Deferred>, callbacks: seq<Work>, isc: seq<Work>,
    next: nat, started: bool, lastHost: nat, lastIsc: nat,
    granted: map<nat, nat>, ever: nat, phases: nat, log: seq<Entry>,
    submitted: multiset<Request>, tasks: multiset<Work>)

  /** The iteration order names every user once. */
  ghost predicate Registered(users: Users, order: seq<nat>) {
    && (forall i, j :: 0 <= i < j < |order| ==> order[i] != order[j])
    && Lists(order, users)
    && forall u :: u in users ==> u in order
  }

  ghost predicate AccountsOk(r: Rate, users: Users) {
    && r.Valid() && AllSound(users)
    && forall u :: u in users ==> AccountOk(r, u, users[u])
  }

  ghost predicate AccountOk(r: Rate, u: nat, a: Account)
    requires r.Valid()
  {
    && Sound(a) && a.cap == r.Cap()
    && (forall i :: 0 <= i < |a.queue| ==> a.queue[i].uid == u)
    && (forall i :: 0 <= i < |a.queueIsc| ==> a.queueIsc[i].uid == u)
  }

  /** Since the last reset, what a user was granted is what it spent plus what it still has, and what it
      spent is the sum of its charges. */
  ghost predicate Balanced(users: Users, granted: map<nat, nat>, log: seq<Entry>) {
    && granted.Keys == users.Keys
    && (forall u :: u in users ==>
          users[u].credit + users[u].consumed == granted[u] && users[u].consumed == ChargedTo(log, u))
    && forall u :: u !in users ==> ChargedTo(log, u) == 0
  }

  /** All grants so far, and the fractions still carried, fit in the budgets of the phases run. */
  ghost predicate Within(r: Rate, users: Users, order: seq<nat>, ever: nat, phases: nat) {
    Lists(order, users) && ever as real + CarrySum(users, order) <= Times(phases, r.budget)
  }

  ghost predicate DeferredOk(d: seq<Deferred>, users: Users) {
    forall i :: 0 <= i < |d| ==> d[i].pages == Pages(d[i].req) && d[i].req.uid in users
  }

  function Sum4<T(==)>(a: multiset<T>, b: multiset<T>, x: multiset<T>, y: multiset<T>): multiset<T> {
    a + b + x + y
  }

  /** Moving the same elements into any one of the four places gives the same sum. */
  lemma Sum4Move<T>(a: multiset<T>, b: multiset<T>, x: multiset<T>, y: multiset<T>, one: multiset<T>)
    ensures Sum4(a + one, b, x, y) == Sum4(a, b + one, x, y) == Sum4(a, b, x + one, y) == Sum4(a, b, x, y + one)
    ensures Sum4(a, b, x, y) + one == Sum4(a, b, x, y + one)
  {
  }

  /** Every request submitted since the last reset waits in exactly one place or has left. */
  ghost predicate Conserved(s: Books) {
    && Lists(s.order, s.users)
    && s.submitted == Sum4(multiset(s.admin), Queued(s.users, s.order), multiset(Requests(s.deferred)), Left(s.log))
    && s.tasks == Sum4(multiset(s.callbacks), multiset(s.isc), Finished(s.log), multiset{})
  }

  ghost predicate Inv(c: Setup, s: Books) {
    && c.Valid()
    && Registered(s.users, s.order)
    && AccountsOk(c.rate, s.users)
    && Balanced(s.users, s.granted, s.log)
    && Within(c.rate, s.users, s.order, s.ever, s.phases)
    && DeferredOk(s.deferred, s.users)
    && Conserved(s)
  }

  /** Phases run, pages granted, and the refill timer. */
  function Clock(s: Books): (nat, nat, bool, nat) {
    (s.phases, s.ever, s.started, s.next)
  }

  // ----- the operations ---------------------------------------------------------------------------------

  function NewAccount(c: Setup, u: nat): Account
    requires c.Valid()
  {
    Account(1, c.rate.Cap(), 0, 0.0, 0, 0, 0, u in c.slo, false, NoTarget, 0.0, 1.0, 0, [], [])
  }

  /** getOrCreateUser */
  function Enroll(c: Setup, s: Books, u: nat): (r: Books)
    requires c.Valid()
    ensures u in r.users && Clock(r) == Clock(s)
  {
    if u in s.users then s
    else s.(users := s.users[u := NewAccount(c, u)], order := s.order + [u], granted := s.granted[u := 0])
  }

  function Put(s: Books, u: nat, a: Account): Books {
    s.(users := s.users[u := a])
  }

  /** The activation in submitRequest and ensureActiveUser; the first one starts the refill timer. */
  function Activate(c: Setup, s: Books, u: nat, now: nat): (r: Books)
    requires c.Valid() && u in s.users
    ensures u in r.users
  {
    if s.users[u].active then s
    else
      var s1 := Put(s, u, s.users[u].(active := true, credit := 0));
      if s.started then s1 else s1.(next := now + c.period, started := true)
  }

  predicate IsGate(r: Request) {
    r.op == CreditOnly || r.op == IscResult
  }

  /** submitRequest */
  function Submit(c: Setup, s: Books, r: Request, now: nat): Books
    requires c.Valid()
  {
    if r.uid == 0 then s.(admin := s.admin + [r], submitted := s.submitted + multiset{r})
    else
      var s1 := Enroll(c, s, r.uid);
      var a := s1.users[r.uid];
      var b := if IsGate(r) then a.(gates := a.gates + (if r.op == CreditOnly then 1 else 0),
          queueIsc := [r] + a.queueIsc)
               else a.(queue := a.queue + [r]);
      Activate(c, Put(s1, r.uid, b).(submitted := s.submitted + multiset{r}), r.uid, now)
  }

  /** How a payment is booked. */
  datatype Purpose = ForHost | ForIsc | Unclassified

  function Paid(a: Account, n: nat, why: Purpose): Account
    requires n <= a.credit
  {
    a.(credit := a.credit - n, consumed := a.consumed + n,
       consumedHost := a.consumedHost + (if why.ForHost? then n else 0),
       consumedIsc := a.consumedIsc + (if why.ForIsc? then n else 0))
  }

  function PurposeOf(r: Request): Purpose {
    if r.op == Read || r.op == Write then ForHost else ForIsc
  }

  /** useCredit and useCreditISC take at most what the account has. */
  function Take(c: Setup, s: Books, u: nat, used: nat, why: Purpose): Books
    requires c.Valid()
  {
    var s1 := Enroll(c, s, u);
    var n := Min(used, s1.users[u].credit);
    Put(s1, u, Paid(s1.users[u], n, why)).(log := s1.log + [Taken(u, n)])
  }

  /** submitISCDeferred */
  function SubmitCallback(s: Books, w: Work): Books {
    s.(callbacks := s.callbacks + [w], tasks := s.tasks + multiset{w})
  }

  /** submitISCRequest */
  function SubmitIsc(c: Setup, s: Books, w: Work, now: nat): Books
    requires c.Valid()
  {
    var s1 := Activate(c, Enroll(c, s, w.uid), w.uid, now).(tasks := s.tasks + multiset{w});
    var a := s1.users[w.uid];
    if w.pages <= a.credit then Put(s1, w.uid, Paid(a, w.pages, ForIsc)).(log := s1.log + [Worked(w)])
    else s1.(isc := s1.isc + [w])
  }

  /** A target of pages per second, or of tail latency, which leaves the former as it is. */
  datatype Target = Iops(pages: real) | Tail

  /** setUserIopsTarget, setUserTailTarget */
  function SetTarget(c: Setup, s: Books, u: nat, target: Target): Books
    requires c.Valid()
  {
    var s1 := Enroll(c, s, u);
    var a := s1.users[u];
    Put(s1, u, if target.Iops? then a.(mode := IopsTarget, targetIops := target.pages) else a.(mode := TailTarget))
  }

  function Cleared(a: Account): Account {
    a.(credit := 0, carry := 0.0, consumed := 0, consumedHost := 0, consumedIsc := 0, active := false, gates := 0,
        queueIsc := [])
  }

  function AllCleared(users: Users): Users {
    map u | u in users :: Cleared(users[u])
  }

  /** resetStatValues: the host queues and the deferred work survive it. */
  function Reset(s: Books): Books
    requires Lists(s.order, s.users)
  {
    var users := AllCleared(s.users);
    s.(users := users, admin := [], lastHost := 0, next := 0,
       granted := map u | u in s.users :: 0, log := [],
       submitted := Queued(users, s.order) + multiset(Requests(s.deferred)),
       tasks := multiset(s.callbacks) + multiset(s.isc))
  }

  // ----- tick() -----------------------------------------------------------------------------------------

  /** (0) The first admin request leaves, and free; dispatching a read or write opens its user's account. */
  function AdminStep(c: Setup, s: Books): (r: Books)
    requires c.Valid() && s.admin != []
    ensures r.admin == s.admin[1..] && Clock(r) == Clock(s)
  {
    var r := s.admin[0];
    var s1 := s.(admin := s.admin[1..], log := s.log + [Admin(r)]);
    if r.op == Read || r.op == Write then Enroll(c, s1, r.uid) else s1
  }

  function DrainAdmin(c: Setup, s: Books): (r: Books)
    requires c.Valid()
    ensures Clock(r) == Clock(s)
    decreases |s.admin|
  {
    if s.admin == [] then s else DrainAdmin(c, AdminStep(c, s))
  }

  /** (1) One refill phase. */
  function Phase(c: Setup, s: Books): Books
    requires c.Valid() && AllSound(s.users) && Lists(s.order, s.users) && s.granted.Keys == s.users.Keys
  {
    var t := TotalsOf(c.rate, s.users, s.order);
    s.(users := AllAfterPhase(t, s.users),
       granted := map u | u in s.users ::
                    AfterPhaseIsSound(t, s.users[u]);
                    s.granted[u] + (AfterPhase(t, s.users[u]).credit - s.users[u].credit),
       ever := s.ever + GrantSum(t, s.users, s.order),
       phases := s.phases + 1,
       next := s.next + c.period)
  }

  /** (2) The first deferred request leaves if it can be paid, otherwise it goes to the back. */
  function ResumeStep(s: Books): Books
    requires s.deferred != []
  {
    var d := s.deferred[0];
    if d.req.uid in s.users && d.pages <= s.users[d.req.uid].credit then
      Put(s, d.req.uid, Paid(s.users[d.req.uid], d.pages, PurposeOf(d.req))).(
        deferred := s.deferred[1..], log := s.log + [Served(d.req)])
    else s.(deferred := s.deferred[1..] + [d])
  }

  /** Every deferred request gets one turn. */
  function Resume(s: Books, n: nat): (r: Books)
    ensures Clock(r) == Clock(s)
    decreases n
  {
    if n == 0 || s.deferred == [] then s else Resume(ResumeStep(s), n - 1)
  }

  function CallbackStep(c: Setup, s: Books): Books
    requires c.Valid() && s.callbacks != []
  {
    var w := s.callbacks[0];
    var s1 := Enroll(c, s, w.uid);
    if w.pages <= s1.users[w.uid].credit then
      Put(s1, w.uid, Paid(s1.users[w.uid], w.pages, ForIsc)).(
        callbacks := s1.callbacks[1..], log := s1.log + [Worked(w)])
    else s1.(callbacks := s1.callbacks[1..] + [w])
  }

  function RunCallbacks(c: Setup, s: Books, n: nat): (r: Books)
    requires c.Valid()
    ensures Clock(r) == Clock(s)
    decreases n
  {
    if n == 0 || s.callbacks == [] then s else RunCallbacks(c, CallbackStep(c, s), n - 1)
  }

  /** processISCRequests */
  function IscStep(c: Setup, s: Books): Books
    requires c.Valid() && s.isc != []
  {
    var w := s.isc[0];
    var s1 := Enroll(c, s, w.uid);
    if w.pages <= s1.users[w.uid].credit then
      Put(s1, w.uid, Paid(s1.users[w.uid], w.pages, ForIsc)).(isc := s1.isc[1..], log := s1.log + [Worked(w)])
    else s1.(isc := s1.isc[1..] + [w])
  }

  function RunIsc(c: Setup, s: Books, n: nat): (r: Books)
    requires c.Valid()
    ensures Clock(r) == Clock(s)
    decreases n
  {
    if n == 0 || s.isc == [] then s else RunIsc(c, IscStep(c, s), n - 1)
  }

  /** (3) Serve or defer the request at the head of one of a user's queues. */
  function TryHead(s: Books, u: nat, isc: bool): (r: (Books, bool))
    requires u in s.users
    ensures r.0.order == s.order && r.0.users.Keys == s.users.Keys && Clock(r.0) == Clock(s)
  {
    var a := s.users[u];
    var q := if isc then a.queueIsc else a.queue;
    if q == [] then (s, false)
    else
      var r := q[0];
      var b := if isc then a.(queueIsc := q[1..]) else a.(queue := q[1..]);
      if Pages(r) <= a.credit then
        var s1 := Put(s, u, Paid(b, Pages(r), if isc then ForIsc else PurposeOf(r))).(log := s.log + [Served(r)]);
        (if isc then s1.(lastIsc := u) else s1.(lastHost := u), true)
      else
        (Put(s, u, b).(deferred := s.deferred + [Deferred(r, Pages(r))]), false)
  }

  /** Visit `left` users in order, starting at position i, until one is served. */
  function Scan(s: Books, isc: bool, i: nat, left: nat): (r: (Books, bool))
    requires Lists(s.order, s.users)
    ensures r.0.order == s.order && r.0.users.Keys == s.users.Keys && Clock(r.0) == Clock(s)
    decreases left
  {
    if left == 0 || s.order == [] then (s, false)
    else
      var k := if i >= |s.order| then 0 else i;
      var (s1, served) := TryHead(s, s.order[k], isc);
      if served then (s1, true) else Scan(s1, isc, k + 1, left - 1)
  }

  /** The position after the user served last. */
  function After(order: seq<nat>, last: nat, i: nat): nat
    requires i <= |order|
    decreases |order| - i
  {
    if i == |order| then 0 else if order[i] == last then i + 1 else After(order, last, i + 1)
  }

  function ScanClass(s: Books, isc: bool): (r: (Books, bool))
    requires Lists(s.order, s.users)
    ensures r.0.order == s.order && r.0.users.Keys == s.users.Keys && Clock(r.0) == Clock(s)
  {
    Scan(s, isc, After(s.order, if isc then s.lastIsc else s.lastHost, 0), |s.order|)
  }

  // ----- one account changes ----------------------------------------------------------------------------

  lemma {:induction false} OthersOnly(users: Users, order: seq<nat>, u: nat, a: Account)
    requires Lists(order, users) && u !in order
    ensures CarrySum(users[u := a], order) == CarrySum(users, order)
    ensures Queued(users[u := a], order) == Queued(users, order)
    decreases |order|
  {
    if order != [] { OthersOnly(users, order[..|order| - 1], u, a); }
  }

  lemma {:induction false} ChangeCarry(users: Users, order: seq<nat>, u: nat, a: Account)
    requires Lists(order, users) && u in order && forall i, j :: 0 <= i < j < |order| ==> order[i] != order[j]
    ensures var b := users[u];
            CarrySum(users[u := a], order) ==
            CarrySum(users, order) - (if b.slo then 0.0 else b.carry) + (if a.slo then 0.0 else a.carry)
    decreases |order|
  {
    var n := |order| - 1;
    var rest := order[..n];
    if order[n] == u {
      OthersOnly(users, rest, u, a);
    } else {
      assert u in rest;
      ChangeCarry(users, rest, u, a);
    }
  }

  lemma Swap<T>(x: multiset<T>, y: multiset<T>, b: multiset<T>, c: multiset<T>, z: multiset<T>)
    requires x + b == y + c
    ensures (x + z) + b == (y + z) + c
  {
    assert (x + z) + b == (x + b) + z;
    assert (y + z) + c == (y + c) + z;
  }

  lemma {:induction false} ChangeQueued(users: Users, order: seq<nat>, u: nat, a: Account)
    requires Lists(order, users) && u in order && forall i, j :: 0 <= i < j < |order| ==> order[i] != order[j]
    ensures Queued(users[u := a], order) + Bag(users[u]) == Queued(users, order) + Bag(a)
    decreases |order|
  {
    hide Bag;
    var n := |order| - 1;
    var rest := order[..n];
    if order[n] == u {
      OthersOnly(users, rest, u, a);
    } else {
      assert u in rest;
      ChangeQueued(users, rest, u, a);
      Swap(Queued(users[u := a], rest), Queued(users, rest), Bag(users[u]), Bag(a), Bag(users[order[n]]));
    }
  }

  // ----- what single steps keep ---------------------------------------------------------------------------

  /** Everything but conservation. */
  ghost predicate Sums(c: Setup, s: Books) {
    && c.Valid()
    && Registered(s.users, s.order)
    && AccountsOk(c.rate, s.users)
    && Balanced(s.users, s.granted, s.log)
    && Within(c.rate, s.users, s.order, s.ever, s.phases)
    && DeferredOk(s.deferred, s.users)
  }

  /** Same account except for the queues. */
  predicate Requeued(a: Account, b: Account) {
    b == a.(queue := b.queue, queueIsc := b.queueIsc, gates := b.gates)
  }

  /** Replacing an account by one with the same carry keeps everything that does not mention its credit. */
  lemma PutKeeps(c: Setup, s: Books, u: nat, a: Account)
    requires c.Valid() && u in s.users && AccountOk(c.rate, u, a) && a.slo == s.users[u].slo
    requires a.carry == s.users[u].carry
    requires Registered(s.users, s.order) && AccountsOk(c.rate, s.users)
    requires Within(c.rate, s.users, s.order, s.ever, s.phases) && DeferredOk(s.deferred, s.users)
    ensures var users := s.users[u := a];
            && Registered(users, s.order) && AccountsOk(c.rate, users)
            && Within(c.rate, users, s.order, s.ever, s.phases) && DeferredOk(s.deferred, users)
  {
    hide AccountOk, Sound, CarrySum;
    ChangeCarry(s.users, s.order, u, a);
    assert Sound(a) by { AccountIsSound(c.rate, u, a); }
  }

  lemma AccountIsSound(r: Rate, u: nat, a: Account)
    requires r.Valid() && AccountOk(r, u, a)
    ensures Sound(a)
  {
  }

  lemma BalancedPay(users: Users, granted: map<nat, nat>, log: seq<Entry>, u: nat, a: Account, e: Entry)
    requires Balanced(users, granted, log) && u in users && e.Owner() == u
    requires a.credit + e.Charge() == users[u].credit && a.consumed == users[u].consumed + e.Charge()
    ensures Balanced(users[u := a], granted, log + [e])
  {
    hide ChargedTo;
    LogOne(log, e);
  }

  /** Paying for what leaves keeps every sum. */
  lemma PayKeeps(c: Setup, s: Books, u: nat, b: Account, n: nat, why: Purpose, e: Entry)
    requires Sums(c, s) && u in s.users && Requeued(s.users[u], b) && AccountOk(c.rate, u, b) && n <= b.credit
    requires e.Owner() == u && e.Charge() == n
    ensures Sums(c, Put(s, u, Paid(b, n, why)).(log := s.log + [e]))
  {
    PutKeeps(c, s, u, Paid(b, n, why));
    BalancedPay(s.users, s.granted, s.log, u, Paid(b, n, why), e);
    hide Registered, AccountsOk, Balanced, Within, DeferredOk;
  }

  /** Moving requests between queues keeps every sum. */
  lemma RequeueKeeps(c: Setup, s: Books, u: nat, b: Account)
    requires Sums(c, s) && u in s.users && Requeued(s.users[u], b) && AccountOk(c.rate, u, b)
    ensures Sums(c, Put(s, u, b))
  {
    hide Registered, AccountsOk, Within, DeferredOk, ChargedTo;
    PutKeeps(c, s, u, b);
  }
}
