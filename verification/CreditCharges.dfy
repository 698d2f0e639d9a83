/** What requests cost, in bytes: pages of 4096 bytes, rounded up. */
module CreditCharges {
  import opened CreditMath
  import opened CreditLedger
  import opened CreditInvariant
  import opened CreditRun
  import opened CreditReentry

  /** The charge is the least number of pages that holds the bytes. */
  lemma PagesCover(r: Request)
    ensures r.length <= 4096 * Pages(r)
    ensures 0 < r.length ==> 4096 * (Pages(r) - 1) < r.length
    ensures r.length == 0 ==> Pages(r) == 0
  {
  }

  /** A credit pays for a request exactly if its pages hold the bytes. */
  lemma PayableIff(r: Request, credit: nat)
    ensures Pages(r) <= credit <==> r.length <= 4096 * credit
  {
    PagesCover(r);
  }

  // ----- the log ---------------------------------------------------------------------------------------------------

  /** Bytes of the requests of a user that were served. */
  function BytesServed(log: seq<Entry>, u: nat): nat {
    if log == [] then 0
    else
      var e := log[|log| - 1];
      BytesServed(log[..|log| - 1], u) + if e.Served? && e.req.uid == u then e.req.length else 0
  }

  /** How many requests of a user with bytes in them were served. */
  function TimesServed(log: seq<Entry>, u: nat): nat {
    if log == [] then 0
    else
      var e := log[|log| - 1];
      TimesServed(log[..|log| - 1], u) + if e.Served? && e.req.uid == u && 0 < e.req.length then 1 else 0
  }

  /** Pages charged to a user for requests served. */
  function ServedPages(log: seq<Entry>, u: nat): nat {
    if log == [] then 0
    else
      var e := log[|log| - 1];
      ServedPages(log[..|log| - 1], u) + if e.Served? && e.req.uid == u then e.Charge() else 0
  }

  /** The bytes served fit in the pages charged, no request costs a page more than its bytes need, and each of them
      costs one at least. */
  lemma {:induction false} BytesArePaid(log: seq<Entry>, u: nat)
    ensures BytesServed(log, u) <= 4096 * ServedPages(log, u)
    ensures 4096 * ServedPages(log, u) <= BytesServed(log, u) + 4095 * TimesServed(log, u)
    ensures TimesServed(log, u) <= ServedPages(log, u) <= ChargedTo(log, u)
    decreases |log|
  {
    hide Pages;
    if log != [] {
      BytesArePaid(log[..|log| - 1], u);
      if log[|log| - 1].Served? { PagesCover(log[|log| - 1].req); }
    }
  }

  /** After any run, callbacks included: a user's bytes served fit in the pages it was charged, up to the rounding of
      each request, and nothing with bytes in it has left for free but admin requests. */
  lemma LedgerPaysForBytes(c: Setup, ms: seq<Micro>, u: nat, i: nat)
    requires c.Valid() && AllValid(ms)
    ensures Inv(c, Initial(c))
    ensures var s := MicroRun(c, Initial(c), ms);
            && (u in s.users ==> BytesServed(s.log, u) <= 4096 * s.users[u].consumed)
            && 4096 * ServedPages(s.log, u) <= BytesServed(s.log, u) + 4095 * TimesServed(s.log, u)
            && (i < |s.log| && (s.log[i].Admin? || s.log[i].Served?) && 0 < s.log[i].req.length ==>
                  s.log[i].Charge() == 0 ==> s.log[i].Admin?)
  {
    hide MicroRun, Inv, Conserved, Pages;
    LedgerUnderReentry(c, ms, u);
    var s := MicroRun(c, Initial(c), ms);
    BytesArePaid(s.log, u);
    if i < |s.log| && s.log[i].Served? { PagesCover(s.log[i].req); }
  }

  // ----- the head of a queue -----------------------------------------------------------------------------------

  /** The head of a queue is there and its bytes fit in the pages of its user's credit. */
  predicate Payable(s: Books, u: nat, isc: bool)
    requires u in s.users
  {
    var q := if isc then s.users[u].queueIsc else s.users[u].queue;
    q != [] && q[0].length <= 4096 * s.users[u].credit
  }

  /** The head is served exactly if it is payable, and then leaves for the fewest pages that hold it; otherwise it is
      deferred. Nobody else is touched. */
  lemma HeadServedIff(s: Books, u: nat, isc: bool)
    requires u in s.users
    ensures var r := TryHead(s, u, isc);
            var q := if isc then s.users[u].queueIsc else s.users[u].queue;
            && r.1 == Payable(s, u, isc) && (r.1 ==> q != [])
            && (forall v :: v in s.users && v != u ==> v in r.0.users && r.0.users[v] == s.users[v])
            && (q == [] ==> r.0 == s)
            && (q != [] ==>
                  && u in r.0.users
                  && (if isc then r.0.users[u].queueIsc == q[1..] && r.0.users[u].queue == s.users[u].queue
                      else r.0.users[u].queue == q[1..] && r.0.users[u].queueIsc == s.users[u].queueIsc)
                  && if r.1 then
                       && r.0.log == s.log + [Served(q[0])] && r.0.deferred == s.deferred
                       && (if isc then r.0.lastIsc == u && r.0.lastHost == s.lastHost
                           else r.0.lastHost == u && r.0.lastIsc == s.lastIsc)
                       && var a, b := s.users[u], r.0.users[u];
                       var paid := a.credit - b.credit;
                       var host := !isc && (q[0].op == Read || q[0].op == Write);
                       && q[0].length <= 4096 * paid && (0 < q[0].length ==> 4096 * (paid - 1) < q[0].length)
                       && b.consumed == a.consumed + paid
                       && b.consumedHost == a.consumedHost + (if host then paid else 0)
                       && b.consumedIsc == a.consumedIsc + (if host then 0 else paid)
                     else
                       && r.0.log == s.log && r.0.users[u].credit == s.users[u].credit
                       && r.0.lastHost == s.lastHost && r.0.lastIsc == s.lastIsc
                       && r.0.deferred == s.deferred + [Deferred(q[0], Pages(q[0]))])
  {
    var q := if isc then s.users[u].queueIsc else s.users[u].queue;
    hide Pages;
    if q != [] {
      PagesCover(q[0]);
      PayableIff(q[0], s.users[u].credit);
    }
  }

  /** Where a submitted request waits: requests of user 0 with the admin requests, gates before all other in-storage
      requests of their user, everything else behind the user's host requests. The user becomes active, and starts
      without credit if it was not. */
  lemma SubmitPlaces(c: Setup, s: Books, r: Request, now: nat)
    requires c.Valid()
    ensures var t := Submit(c, s, r, now);
            if r.uid == 0 then t.admin == s.admin + [r] && t.users == s.users
            else
              && t.admin == s.admin && r.uid in t.users
              && (forall v :: v in s.users && v != r.uid ==> v in t.users && t.users[v] == s.users[v])
              && var a, b := if r.uid in s.users then s.users[r.uid] else NewAccount(c, r.uid), t.users[r.uid];
              && b.active && b.credit == (if a.active then a.credit else 0)
              && (if r.op == CreditOnly || r.op == IscResult then b.queueIsc == [r] + a.queueIsc && b.queue == a.queue
                  else b.queue == a.queue + [r] && b.queueIsc == a.queueIsc)
              && b.gates == a.gates + (if r.op == CreditOnly then 1 else 0)
  {
  }

  /** A direct charge takes what is asked for, or all there is. */
  lemma TakePays(c: Setup, s: Books, u: nat, used: nat, why: Purpose)
    requires c.Valid()
    ensures var t := Take(c, s, u, used, why);
            && u in t.users
            && (forall v :: v in s.users && v != u ==> v in t.users && t.users[v] == s.users[v])
            && var a, b := if u in s.users then s.users[u] else NewAccount(c, u), t.users[u];
            var paid := b.consumed - a.consumed;
            && (used <= a.credit ==> paid == used) && (a.credit < used ==> paid == a.credit)
            && b.credit == a.credit - paid && t.log == s.log + [Taken(u, paid)]
            && b.consumedHost == a.consumedHost + (if why == ForHost then paid else 0)
            && b.consumedIsc == a.consumedIsc + (if why == ForIsc then paid else 0)
  {
  }

  /** In-storage work runs at once exactly if its user is active and has the credit, or if it is free; otherwise it
      waits behind the rest. */
  lemma SubmitIscRunsIff(c: Setup, s: Books, w: Work, now: nat)
    requires c.Valid() && forall u :: u in s.users ==> !s.users[u].active ==> s.users[u].credit == 0
    ensures var t := SubmitIsc(c, s, w, now);
            var credit := if w.uid in s.users then s.users[w.uid].credit else 0;
            && w.uid in t.users && t.users[w.uid].active
            && if w.pages <= credit then
                 && t.isc == s.isc && t.log == s.log + [Worked(w)]
                 && t.users[w.uid].credit == credit - w.pages
               else t.isc == s.isc + [w] && t.log == s.log && t.users[w.uid].credit == credit
  {
  }

  /** A reset takes away credit, carry and in-storage queues of everybody, and all admin requests; host queues and what
      is deferred stay. */
  lemma ResetClears(s: Books, u: nat)
    requires Lists(s.order, s.users) && u in s.users
    ensures var t := Reset(s);
            && t.admin == [] && t.deferred == s.deferred && t.callbacks == s.callbacks && t.isc == s.isc
            && t.order == s.order && t.users.Keys == s.users.Keys && t.started == s.started && t.next == 0
            && var a, b := s.users[u], t.users[u];
            && b.credit == 0 && b.carry == 0.0 && b.consumed == b.consumedHost == b.consumedIsc == 0
            && !b.active && b.gates == 0 && b.queueIsc == [] && b.queue == a.queue
            && b.cap == a.cap && b.weight == a.weight && b.slo == a.slo && b.mode == a.mode
            && b.targetIops == a.targetIops && b.boost == a.boost
  {
  }

  /** A new user has weight one, the common cap, no credit, no target and no boost, and is not active. */
  lemma NewUserIs(c: Setup, s: Books, u: nat)
    requires c.Valid() && u !in s.users
    ensures var t := Enroll(c, s, u);
            && t.order == s.order + [u] && t.users.Keys == s.users.Keys + {u} && u in t.users
            && (forall v :: v in s.users ==> t.users[v] == s.users[v])
            && var a := t.users[u];
            && a.weight == 1 && a.cap == c.rate.Cap() && a.credit == 0 && a.carry == 0.0 && a.consumed == 0
            && !a.active && (a.slo <==> u in c.slo) && a.mode == NoTarget && a.targetIops == 0.0 && a.boost == 1.0
            && a.queue == [] && a.queueIsc == [] && a.gates == 0
  {
  }

  /** Setting a target changes the mode, and the rate exactly if it is a rate. */
  lemma TargetIsSet(c: Setup, s: Books, u: nat, target: Target)
    requires c.Valid() && u in s.users
    ensures var a, t := s.users[u], SetTarget(c, s, u, target);
            && t == s.(users := t.users) && u in t.users
            && (forall v :: v in s.users && v != u ==> v in t.users && t.users[v] == s.users[v])
            && var b := t.users[u];
            && b == a.(mode := b.mode, targetIops := b.targetIops)
            && match target
               case Iops(x) => b.mode == IopsTarget && b.targetIops == x
               case Tail => b.mode == TailTarget && b.targetIops == a.targetIops
  {
  }
}
