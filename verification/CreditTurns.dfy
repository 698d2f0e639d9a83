/** Who is served and who leaves: the round over the users, and the passes over waiting work. */
module CreditTurns {
  import opened CreditMath
  import opened CreditLedger
  import opened CreditInvariant
  import opened CreditRun
  import opened CreditCharges

  // ----- round robin ---------------------------------------------------------------------------------------------

  ghost predicate Distinct(order: seq<nat>) {
    forall i, j :: 0 <= i < j < |order| ==> order[i] != order[j]
  }

  /** The users in the order of a round that starts at position i. */
  function Rotation(order: seq<nat>, i: nat): (vs: seq<nat>)
    requires i <= |order|
    ensures |vs| == |order|
  {
    order[i..] + order[..i]
  }

  /** The round starts behind the user chosen last, or at the front if there is none. */
  lemma {:induction false} StartsBehindLast(order: seq<nat>, last: nat, p: nat, i: nat)
    requires Distinct(order) && i <= |order|
    ensures After(order, last, i) <= |order|
    ensures i <= p < |order| && order[p] == last ==> After(order, last, i) == p + 1
    ensures last !in order[i..] ==> After(order, last, i) == 0
    decreases |order| - i
  {
    if i < |order| && order[i] != last {
      assert last !in order[i..] ==> last !in order[i + 1..];
      StartsBehindLast(order, last, p, i + 1);
    } else if i < |order| {
      assert order[i] in order[i..];
    }
  }

  ghost function Last(s: Books, isc: bool): nat {
    if isc then s.lastIsc else s.lastHost
  }

  /** The users in the order in which the next round visits them. */
  ghost function NextRound(s: Books, isc: bool): (vs: seq<nat>)
    requires Distinct(s.order)
    ensures |vs| == |s.order|
  {
    StartsBehindLast(s.order, Last(s, isc), 0, 0);
    Rotation(s.order, After(s.order, Last(s, isc), 0))
  }

  /** The user chosen last is visited last. */
  lemma ChosenLastIsVisitedLast(s: Books, isc: bool)
    requires Distinct(s.order) && Last(s, isc) in s.order
    ensures NextRound(s, isc) != [] && NextRound(s, isc)[|s.order| - 1] == Last(s, isc)
  {
    var p :| 0 <= p < |s.order| && s.order[p] == Last(s, isc);
    StartsBehindLast(s.order, Last(s, isc), p, 0);
  }

  /** Visit these users in order until one is served. */
  function VisitAll(s: Books, isc: bool, vs: seq<nat>): (Books, bool)
    requires Lists(vs, s.users)
    decreases |vs|
  {
    if vs == [] then (s, false)
    else
      var r := TryHead(s, vs[0], isc);
      if r.1 then r else VisitAll(r.0, isc, vs[1..])
  }

  lemma RotationAt(order: seq<nat>, i: nat, j: nat)
    requires i <= |order| && j < |order|
    ensures Rotation(order, i)[j] == order[if i + j < |order| then i + j else i + j - |order|]
  {
  }

  lemma RotationStep(order: seq<nat>, i: nat, left: nat)
    requires i <= |order| && 0 < left <= |order|
    ensures var k := if i >= |order| then 0 else i;
            var vs := Rotation(order, i)[..left];
            vs[0] == order[k] && vs[1..] == Rotation(order, k + 1)[..left - 1]
  {
  }

  lemma NoVisit(s: Books, isc: bool, i: nat)
    requires Lists(s.order, s.users)
    ensures Scan(s, isc, i, 0) == VisitAll(s, isc, []) == (s, false)
  {
  }

  /** One step of either side. */
  lemma OneVisit(s: Books, isc: bool, i: nat, left: nat)
    requires Lists(s.order, s.users) && i <= |s.order| && 0 < left <= |s.order|
    ensures var k := if i >= |s.order| then 0 else i;
            var t := TryHead(s, s.order[k], isc);
            && Scan(s, isc, i, left) == (if t.1 then t else Scan(t.0, isc, k + 1, left - 1))
            && forall vs :: Lists(vs, s.users) && vs != [] && vs[0] == s.order[k] ==>
                 VisitAll(s, isc, vs) == if t.1 then t else VisitAll(t.0, isc, vs[1..])
  {
    hide TryHead;
  }

  lemma {:induction false} ScanVisits(s: Books, isc: bool, i: nat, left: nat)
    requires Lists(s.order, s.users) && i <= |s.order| && left <= |s.order|
    ensures Lists(Rotation(s.order, i)[..left], s.users)
    ensures Scan(s, isc, i, left) == VisitAll(s, isc, Rotation(s.order, i)[..left])
    decreases left
  {
    hide TryHead, Rotation, VisitAll, Scan;
    NoVisit(s, isc, i);
    if left > 0 {
      var k := if i >= |s.order| then 0 else i;
      RotationStep(s.order, i, left);
      var t := TryHead(s, s.order[k], isc);
      ScanVisits(t.0, isc, k + 1, left - 1);
      OneVisit(s, isc, i, left);
    }
  }

  /** A visit leaves all other users as they are. */
  lemma VisitLeavesOthers(s: Books, isc: bool, u: nat, v: nat)
    requires u in s.users && v in s.users && u != v
    ensures var r := TryHead(s, u, isc).0; v in r.users && (Payable(r, v, isc) == Payable(s, v, isc))
  {
    hide Pages;
    HeadServedIff(s, u, isc);
  }

  /** The k-th user can pay, was served, and none before it can pay; those behind are untouched. */
  ghost predicate ServedAt(s: Books, r: Books, isc: bool, vs: seq<nat>, k: nat)
    requires Lists(vs, s.users)
  {
    && k < |vs| && Payable(s, vs[k], isc) && Last(r, isc) == vs[k] && Lists(vs, r.users)
    && (forall j :: 0 <= j < k ==> !Payable(s, vs[j], isc))
    && forall j :: k < j < |vs| ==> Payable(r, vs[j], isc) == Payable(s, vs[j], isc)
  }

  /** The first user in turn who can pay is served, and nobody if there is none. */
  lemma {:induction false} FirstPayableIsServed(s: Books, isc: bool, vs: seq<nat>)
    requires Lists(vs, s.users) && Distinct(vs)
    ensures var r := VisitAll(s, isc, vs);
            && r.0.order == s.order && r.0.users.Keys == s.users.Keys
            && if r.1 then
                 exists k: nat :: ServedAt(s, r.0, isc, vs, k)
               else forall j :: 0 <= j < |vs| ==> !Payable(s, vs[j], isc)
    decreases |vs|
  {
    hide TryHead, Payable;
    if vs != [] {
      HeadServedIff(s, vs[0], isc);
      var r := TryHead(s, vs[0], isc);
      forall j | 0 < j < |vs|
        ensures Payable(r.0, vs[j], isc) == Payable(s, vs[j], isc)
      {
        VisitLeavesOthers(s, isc, vs[0], vs[j]);
      }
      if !r.1 {
        FirstPayableIsServed(r.0, isc, vs[1..]);
        var t := VisitAll(r.0, isc, vs[1..]);
        if t.1 {
          var k: nat :| ServedAt(r.0, t.0, isc, vs[1..], k);
          ServedLater(s, r.0, t.0, isc, vs, k);
        } else {
          forall j | 0 <= j < |vs|
            ensures !Payable(s, vs[j], isc)
          {
            if j > 0 { assert vs[j] == vs[1..][j - 1]; }
          }
        }
      } else {
        assert ServedAt(s, r.0, isc, vs, 0);
      }
    }
  }

  lemma ServedLater(s: Books, s1: Books, r: Books, isc: bool, vs: seq<nat>, k: nat)
    requires Lists(vs, s.users) && vs != [] && Lists(vs[1..], s1.users) && ServedAt(s1, r, isc, vs[1..], k)
    requires !Payable(s, vs[0], isc) && vs[0] in r.users
    requires forall j :: 0 < j < |vs| ==> vs[j] in s1.users && Payable(s1, vs[j], isc) == Payable(s, vs[j], isc)
    ensures ServedAt(s, r, isc, vs, k + 1)
  {
    hide Payable;
    var ws := vs[1..];
    assert forall j :: 0 < j < |vs| ==> vs[j] == ws[j - 1];
  }

  lemma RotationDistinct(order: seq<nat>, i: nat)
    requires Distinct(order) && i <= |order|
    ensures Distinct(Rotation(order, i))
  {
  }

  /** One round for host or in-storage requests: who is served, by whom the turn passes. */
  lemma RoundServesFirst(s: Books, isc: bool)
    requires Lists(s.order, s.users) && Distinct(s.order)
    ensures var vs := NextRound(s, isc);
            && Lists(vs, s.users)
            && var r := ScanClass(s, isc);
            && r.0.order == s.order && r.0.users.Keys == s.users.Keys
            && if r.1 then
                 exists k: nat :: ServedAt(s, r.0, isc, vs, k)
               else forall j :: 0 <= j < |vs| ==> !Payable(s, vs[j], isc)
  {
    hide Scan, VisitAll, Payable, After, Rotation;
    var i := After(s.order, Last(s, isc), 0);
    StartsBehindLast(s.order, Last(s, isc), 0, 0);
    var vs := NextRound(s, isc);
    RotationDistinct(s.order, i);
    ScanVisits(s, isc, i, |s.order|);
    assert vs[..|s.order|] == vs;
    FirstPayableIsServed(s, isc, vs);
  }

  /** After a user has been served, those behind it come before those it passed. */
  lemma ComesCloser(order: seq<nat>, i: nat, k: nat, m: nat)
    requires Distinct(order) && i <= |order| && k < m < |order|
    ensures var vs := Rotation(order, i);
            var j := After(order, vs[k], 0);
            j <= |order| && Rotation(order, j)[m - k - 1] == vs[m]
  {
    hide Rotation, After, Distinct;
    var vs := Rotation(order, i);
    var p := if i + k < |order| then i + k else i + k - |order|;
    RotationAt(order, i, k);
    RotationAt(order, i, m);
    StartsBehindLast(order, vs[k], p, 0);
    RotationAt(order, p + 1, m - k - 1);
  }

  /** No starvation: a user who can pay is m-th in the next round. If somebody else is served, it can still pay and is
      further to the front. */
  lemma PayableMovesUp(s: Books, isc: bool, m: nat)
    requires Lists(s.order, s.users) && Distinct(s.order) && m < |s.order|
    requires Lists(NextRound(s, isc), s.users) && Payable(s, NextRound(s, isc)[m], isc)
    ensures var u := NextRound(s, isc)[m];
            var r := ScanClass(s, isc);
            && r.1 && r.0.order == s.order && u in r.0.users
            && (Last(r.0, isc) == u ||
                (Payable(r.0, u, isc) && exists m' :: 0 <= m' < m && NextRound(r.0, isc)[m'] == u))
  {
    hide Scan, Payable, After, Rotation;
    RoundServesFirst(s, isc);
    var vs := NextRound(s, isc);
    var r := ScanClass(s, isc);
    var k: nat :| ServedAt(s, r.0, isc, vs, k);
    if k < m {
      StartsBehindLast(s.order, Last(s, isc), 0, 0);
      ComesCloser(s.order, After(s.order, Last(s, isc), 0), k, m);
      assert NextRound(r.0, isc)[m - k - 1] == vs[m];
    }
  }

  /** So it is served by one of the next m + 1 rounds, if nothing else happens. */
  function RoundsOf(s: Books, isc: bool, n: nat): Books
    requires Lists(s.order, s.users)
    decreases n
  {
    if n == 0 then s else RoundsOf(ScanClass(s, isc).0, isc, n - 1)
  }

  lemma {:induction false} PayableIsServedInTime(s: Books, isc: bool, m: nat) returns (n: nat)
    requires Lists(s.order, s.users) && Distinct(s.order) && m < |s.order|
    requires Lists(NextRound(s, isc), s.users) && Payable(s, NextRound(s, isc)[m], isc)
    ensures n <= m && Lists(s.order, s.users)
    ensures var t := RoundsOf(s, isc, n);
            && Lists(t.order, t.users)
            && ScanClass(t, isc).1 && Last(ScanClass(t, isc).0, isc) == NextRound(s, isc)[m]
    decreases m
  {
    hide Scan, Payable, After, Rotation, ScanClass, NextRound;
    PayableMovesUp(s, isc, m);
    var u := NextRound(s, isc)[m];
    var r := ScanClass(s, isc).0;
    if Last(r, isc) == u {
      n := 0;
      assert RoundsOf(s, isc, 0) == s;
    } else {
      var m' :| 0 <= m' < m && NextRound(r, isc)[m'] == u;
      RoundServesFirst(r, isc);
      var k := PayableIsServedInTime(r, isc, m');
      n := k + 1;
      assert RoundsOf(s, isc, n) == RoundsOf(r, isc, k);
    }
  }

  // ----- host and in-storage requests ------------------------------------------------------------------------------

  /** Some user can pay for the head of one of its queues. */
  ghost predicate SomePayable(s: Books, isc: bool) {
    exists u :: u in s.users && Payable(s, u, isc)
  }

  /** Visits that serve nobody leave credits and the queues of the other class alone, and log nothing. */
  lemma {:induction false} VainVisits(s: Books, isc: bool, vs: seq<nat>)
    requires Lists(vs, s.users)
    ensures var r := VisitAll(s, isc, vs);
            && (!r.1 ==> r.0.log == s.log && r.0.users.Keys == s.users.Keys
                         && forall v :: v in s.users ==> Payable(r.0, v, !isc) == Payable(s, v, !isc))
            && (r.1 ==> exists q :: r.0.log == s.log + [Served(q)])
    decreases |vs|
  {
    hide TryHead;
    if vs != [] {
      HeadServedIff(s, vs[0], isc);
      hide Payable;
      var r := TryHead(s, vs[0], isc);
      if !r.1 {
        OtherClassStays(s, isc, vs[0]);
        VainVisits(r.0, isc, vs[1..]);
      }
    }
  }

  lemma OtherClassStays(s: Books, isc: bool, u: nat)
    requires u in s.users && !TryHead(s, u, isc).1
    ensures var r := TryHead(s, u, isc).0;
            && r.log == s.log && r.users.Keys == s.users.Keys
            && forall v :: v in s.users ==> Payable(r, v, !isc) == Payable(s, v, !isc)
  {
    hide Pages;
    HeadServedIff(s, u, isc);
  }

  lemma RotationHas(order: seq<nat>, i: nat, u: nat)
    requires i <= |order| && u in order
    ensures u in Rotation(order, i)
  {
    var j :| 0 <= j < |order| && order[j] == u;
    if j < i { assert order[..i][j] == u; } else { assert order[i..][j - i] == u; }
  }

  lemma ScanFacts(c: Setup, s: Books, isc: bool)
    requires Inv(c, s) && Lists(s.order, s.users)
    ensures var r := ScanClass(s, isc);
            && (r.1 <==> SomePayable(s, isc))
            && (r.1 ==> Last(r.0, isc) in s.users && Payable(s, Last(r.0, isc), isc))
            && (!r.1 ==> r.0.log == s.log && r.0.users.Keys == s.users.Keys
                         && forall v :: v in s.users ==> Payable(r.0, v, !isc) == Payable(s, v, !isc))
            && (r.1 ==> exists q :: r.0.log == s.log + [Served(q)])
  {
    hide Scan, VisitAll, Payable, After, AccountsOk, Balanced, Within, Conserved, DeferredOk, Rotation;
    RoundServesFirst(s, isc);
    var i := After(s.order, Last(s, isc), 0);
    StartsBehindLast(s.order, Last(s, isc), 0, 0);
    ScanVisits(s, isc, i, |s.order|);
    var vs := NextRound(s, isc);
    assert vs[..|s.order|] == vs;
    VainVisits(s, isc, vs);
    forall u | u in s.users
      ensures u in vs
    {
      RotationHas(s.order, i, u);
    }
    var r := ScanClass(s, isc);
    if r.1 {
      var k: nat :| ServedAt(s, r.0, isc, vs, k);
    }
  }

  /** A dispatch round serves somebody exactly if somebody can pay, in-storage requests before host requests. */
  lemma RoundServesIff(c: Setup, s: Books)
    requires Inv(c, s) && Lists(s.order, s.users)
    ensures var r := Round(s);
            && (r.1 <==> SomePayable(s, true) || SomePayable(s, false))
            && (SomePayable(s, true) ==> Last(r.0, true) in s.users && Payable(s, Last(r.0, true), true))
            && (r.1 && !SomePayable(s, true) ==> Last(r.0, false) in s.users && Payable(s, Last(r.0, false), false))
            && (r.1 ==> exists q :: r.0.log == s.log + [Served(q)])
            && (!r.1 ==> r.0.log == s.log)
  {
    hide Inv, ScanClass, Payable;
    ScanFacts(c, s, true);
    var r := ScanClass(s, true);
    ScanKept(c, s, true);
    if !r.1 { ScanFacts(c, r.0, false); }
  }

  lemma ScanKept(c: Setup, s: Books, isc: bool)
    requires Inv(c, s) && Lists(s.order, s.users)
    ensures Inv(c, ScanClass(s, isc).0) && Lists(ScanClass(s, isc).0.order, ScanClass(s, isc).0.users)
  {
    hide Inv, Scan, After;
    ScanKeeps(c, s, isc, After(s.order, Last(s, isc), 0), |s.order|);
    InvLists(c, ScanClass(s, isc).0);
  }

  /** Nobody can pay for anything at the head of a queue. */
  ghost predicate NothingPayable(s: Books) {
    !SomePayable(s, true) && !SomePayable(s, false)
  }

  /** Up to n requests are dispatched, one in each round; fewer only if a state is reached in which nobody can pay. */
  lemma {:induction false} RoundsDispatch(c: Setup, s: Books, n: nat) returns (tail: seq<Entry>, stop: Books)
    requires Inv(c, s)
    ensures Rounds(c, s, n).log == s.log + tail && |tail| <= n
    ensures forall i :: 0 <= i < |tail| ==> tail[i].Served?
    ensures |tail| < n ==> Inv(c, stop) && stop.log == s.log + tail && NothingPayable(stop)
    decreases n
  {
    hide Inv, Round, SomePayable;
    tail, stop := [], s;
    if n > 0 {
      InvLists(c, s);
      RoundServesIff(c, s);
      RoundKeeps(c, s);
      var r := Round(s);
      if r.1 {
        var q :| r.0.log == s.log + [Served(q)];
        var rest;
        rest, stop := RoundsDispatch(c, r.0, n - 1);
        tail := [Served(q)] + rest;
        assert s.log + [Served(q)] + rest == s.log + tail;
      } else {
        assert s.log + [] == s.log;
      }
    } else {
      assert s.log + [] == s.log;
    }
  }

  // ----- waiting work: everything gets one turn --------------------------------------------------------------------

  /** What a user can pay; one who is not known yet can pay nothing. */
  function CreditOf(s: Books, u: nat): nat {
    if u in s.users then s.users[u].credit else 0
  }

  predicate CanPay(s: Books, d: Deferred) {
    d.req.uid in s.users && d.req.length <= 4096 * s.users[d.req.uid].credit
  }

  ghost predicate Priced(ds: seq<Deferred>) {
    forall i :: 0 <= i < |ds| ==> ds[i].pages == Pages(ds[i].req)
  }

  /** The k-th element is next, with k - 1 gone and some put back behind. */
  lemma Ahead<T>(all: seq<T>, back: seq<T>, k: nat)
    requires 0 < k <= |all|
    ensures var q := all[k - 1..] + back; q != [] && q[0] == all[k - 1] && q[1..] == all[k..] + back
  {
  }

  lemma Advance<T>(all: seq<T>, back: seq<T>, more: seq<T>, k: nat)
    requires k <= |all|
    ensures (all[k..] + back) + more == all[k..] + (back + more)
  {
  }

  lemma Join<T>(a: seq<T>, b: seq<T>, c: seq<T>)
    ensures (a + b) + c == a + (b + c)
  {
  }

  lemma {:induction false} ResumeSnoc(s: Books, k: nat)
    requires Resume(s, k).deferred != []
    ensures Resume(s, k + 1) == ResumeStep(Resume(s, k))
    decreases k
  {
    hide ResumeStep;
    if k > 0 && s.deferred != [] { ResumeSnoc(ResumeStep(s), k - 1); }
    if k == 0 { assert Resume(ResumeStep(s), 0) == ResumeStep(s); }
  }

  /** Of the first k deferred requests: those that could not be paid at their turn, and what the others left behind. */
  function StillDeferred(s: Books, k: nat): seq<Deferred>
    requires k <= |s.deferred|
  {
    if k == 0 then []
    else
      var d := s.deferred[k - 1];
      StillDeferred(s, k - 1) + if CanPay(Resume(s, k - 1), d) then [] else [d]
  }

  function Resumed(s: Books, k: nat): seq<Entry>
    requires k <= |s.deferred|
  {
    if k == 0 then []
    else
      var d := s.deferred[k - 1];
      Resumed(s, k - 1) + if CanPay(Resume(s, k - 1), d) then [Served(d.req)] else []
  }

  lemma ResumeStepIs(s: Books)
    requires s.deferred != [] && s.deferred[0].pages == Pages(s.deferred[0].req)
    ensures var d := s.deferred[0];
            var r := ResumeStep(s);
            && r.deferred == s.deferred[1..] + (if CanPay(s, d) then [] else [d])
            && r.log == s.log + (if CanPay(s, d) then [Served(d.req)] else [])
            && (forall v :: v in s.users && v != d.req.uid ==> v in r.users && r.users[v] == s.users[v])
            && (!CanPay(s, d) ==> r.users == s.users)
            && (CanPay(s, d) ==>
                  && d.req.uid in r.users
                  && var a, b := s.users[d.req.uid], r.users[d.req.uid];
                  var host := d.req.op == Read || d.req.op == Write;
                  && b.credit == a.credit - d.pages && b.consumed == a.consumed + d.pages
                  && b.consumedHost == a.consumedHost + (if host then d.pages else 0)
                  && b.consumedIsc == a.consumedIsc + (if host then 0 else d.pages))
  {
    if s.deferred[0].req.uid in s.users { PayableIff(s.deferred[0].req, s.users[s.deferred[0].req.uid].credit); }
    hide Pages;
    assert s.deferred[1..] + [] == s.deferred[1..] && s.log + [] == s.log;
  }

  lemma {:induction false} ResumedSoFar(s: Books, k: nat)
    requires k <= |s.deferred| && Priced(s.deferred)
    ensures Resume(s, k).deferred == s.deferred[k..] + StillDeferred(s, k)
    ensures Resume(s, k).log == s.log + Resumed(s, k)
    decreases k
  {
    hide Resume, ResumeStep, CanPay;
    NothingResumed(s);
    if k > 0 {
      ResumedSoFar(s, k - 1);
      Ahead(s.deferred, StillDeferred(s, k - 1), k);
      ResumeSnoc(s, k - 1);
      ResumeStepIs(Resume(s, k - 1));
      Advance(s.deferred, StillDeferred(s, k - 1), if CanPay(Resume(s, k - 1), s.deferred[k - 1]) then []
                                                   else [s.deferred[k - 1]], k);
      Join(s.log, Resumed(s, k - 1), if CanPay(Resume(s, k - 1), s.deferred[k - 1]) then [Served(s.deferred[k - 1].req)]
                                     else []);
    }
  }

  lemma NothingResumed(s: Books)
    ensures Resume(s, 0) == s && s.deferred[0..] + [] == s.deferred && s.log + [] == s.log
  {
  }

  /** In a pass over the deferred requests, exactly those leave that can be paid at their turn; the others wait on, in
      the same order. */
  lemma DeferredLeaveIffPayable(c: Setup, s: Books)
    requires Inv(c, s)
    ensures var n := |s.deferred|;
            Resume(s, n).deferred == StillDeferred(s, n) && Resume(s, n).log == s.log + Resumed(s, n)
  {
    hide Resume, StillDeferred, Resumed, Balanced, Within, Conserved, Pages, AccountsOk, Registered;
    var n := |s.deferred|;
    ResumedSoFar(s, n);
    assert s.deferred[n..] + StillDeferred(s, n) == StillDeferred(s, n);
  }

  // ----- callbacks -------------------------------------------------------------------------------------------------

  lemma {:induction false} RunCallbacksSnoc(c: Setup, s: Books, k: nat)
    requires c.Valid() && RunCallbacks(c, s, k).callbacks != []
    ensures RunCallbacks(c, s, k + 1) == CallbackStep(c, RunCallbacks(c, s, k))
    decreases k
  {
    hide CallbackStep;
    if k > 0 && s.callbacks != [] { RunCallbacksSnoc(c, CallbackStep(c, s), k - 1); }
    if k == 0 { assert RunCallbacks(c, CallbackStep(c, s), 0) == CallbackStep(c, s); }
  }

  function StillCallbacks(c: Setup, s: Books, k: nat): seq<Work>
    requires c.Valid() && k <= |s.callbacks|
  {
    if k == 0 then []
    else
      var w := s.callbacks[k - 1];
      StillCallbacks(c, s, k - 1) + if w.pages <= CreditOf(RunCallbacks(c, s, k - 1), w.uid) then [] else [w]
  }

  function CalledBack(c: Setup, s: Books, k: nat): seq<Entry>
    requires c.Valid() && k <= |s.callbacks|
  {
    if k == 0 then []
    else
      var w := s.callbacks[k - 1];
      CalledBack(c, s, k - 1) + if w.pages <= CreditOf(RunCallbacks(c, s, k - 1), w.uid) then [Worked(w)] else []
  }

  lemma CallbackStepIs(c: Setup, s: Books)
    requires c.Valid() && s.callbacks != []
    ensures var w := s.callbacks[0];
            var r := CallbackStep(c, s);
            && r.callbacks == s.callbacks[1..] + (if w.pages <= CreditOf(s, w.uid) then [] else [w])
            && r.log == s.log + (if w.pages <= CreditOf(s, w.uid) then [Worked(w)] else [])
  {
    assert s.callbacks[1..] + [] == s.callbacks[1..] && s.log + [] == s.log;
  }

  lemma {:induction false} CalledBackSoFar(c: Setup, s: Books, k: nat)
    requires c.Valid() && k <= |s.callbacks|
    ensures RunCallbacks(c, s, k).callbacks == s.callbacks[k..] + StillCallbacks(c, s, k)
    ensures RunCallbacks(c, s, k).log == s.log + CalledBack(c, s, k)
    decreases k
  {
    hide RunCallbacks, CallbackStep, CreditOf;
    NothingCalledBack(c, s);
    if k > 0 {
      CalledBackSoFar(c, s, k - 1);
      Ahead(s.callbacks, StillCallbacks(c, s, k - 1), k);
      RunCallbacksSnoc(c, s, k - 1);
      CallbackStepIs(c, RunCallbacks(c, s, k - 1));
      var w := s.callbacks[k - 1];
      var paid := w.pages <= CreditOf(RunCallbacks(c, s, k - 1), w.uid);
      Advance(s.callbacks, StillCallbacks(c, s, k - 1), if paid then [] else [w], k);
      Join(s.log, CalledBack(c, s, k - 1), if paid then [Worked(w)] else []);
    }
  }

  lemma NothingCalledBack(c: Setup, s: Books)
    requires c.Valid()
    ensures RunCallbacks(c, s, 0) == s && s.callbacks[0..] + [] == s.callbacks && s.log + [] == s.log
  {
  }

  /** The same for deferred callbacks. */
  lemma CallbacksRunIffPayable(c: Setup, s: Books)
    requires c.Valid()
    ensures var n := |s.callbacks|;
            && RunCallbacks(c, s, n).callbacks == StillCallbacks(c, s, n)
            && RunCallbacks(c, s, n).log == s.log + CalledBack(c, s, n)
  {
    hide RunCallbacks, StillCallbacks, CalledBack;
    var n := |s.callbacks|;
    CalledBackSoFar(c, s, n);
    assert s.callbacks[n..] + StillCallbacks(c, s, n) == StillCallbacks(c, s, n);
  }

  // ----- in-storage requests ---------------------------------------------------------------------------------------

  lemma {:induction false} RunIscSnoc(c: Setup, s: Books, k: nat)
    requires c.Valid() && RunIsc(c, s, k).isc != []
    ensures RunIsc(c, s, k + 1) == IscStep(c, RunIsc(c, s, k))
    decreases k
  {
    hide IscStep;
    if k > 0 && s.isc != [] { RunIscSnoc(c, IscStep(c, s), k - 1); }
    if k == 0 { assert RunIsc(c, IscStep(c, s), 0) == IscStep(c, s); }
  }

  function StillWaiting(c: Setup, s: Books, k: nat): seq<Work>
    requires c.Valid() && k <= |s.isc|
  {
    if k == 0 then []
    else
      var w := s.isc[k - 1];
      StillWaiting(c, s, k - 1) + if w.pages <= CreditOf(RunIsc(c, s, k - 1), w.uid) then [] else [w]
  }

  function Processed(c: Setup, s: Books, k: nat): seq<Entry>
    requires c.Valid() && k <= |s.isc|
  {
    if k == 0 then []
    else
      var w := s.isc[k - 1];
      Processed(c, s, k - 1) + if w.pages <= CreditOf(RunIsc(c, s, k - 1), w.uid) then [Worked(w)] else []
  }

  lemma IscStepIs(c: Setup, s: Books)
    requires c.Valid() && s.isc != []
    ensures var w := s.isc[0];
            var r := IscStep(c, s);
            && r.isc == s.isc[1..] + (if w.pages <= CreditOf(s, w.uid) then [] else [w])
            && r.log == s.log + (if w.pages <= CreditOf(s, w.uid) then [Worked(w)] else [])
  {
    assert s.isc[1..] + [] == s.isc[1..] && s.log + [] == s.log;
  }

  lemma {:induction false} ProcessedSoFar(c: Setup, s: Books, k: nat)
    requires c.Valid() && k <= |s.isc|
    ensures RunIsc(c, s, k).isc == s.isc[k..] + StillWaiting(c, s, k)
    ensures RunIsc(c, s, k).log == s.log + Processed(c, s, k)
    decreases k
  {
    hide RunIsc, IscStep, CreditOf;
    NothingProcessed(c, s);
    if k > 0 {
      ProcessedSoFar(c, s, k - 1);
      Ahead(s.isc, StillWaiting(c, s, k - 1), k);
      RunIscSnoc(c, s, k - 1);
      IscStepIs(c, RunIsc(c, s, k - 1));
      var w := s.isc[k - 1];
      var paid := w.pages <= CreditOf(RunIsc(c, s, k - 1), w.uid);
      Advance(s.isc, StillWaiting(c, s, k - 1), if paid then [] else [w], k);
      Join(s.log, Processed(c, s, k - 1), if paid then [Worked(w)] else []);
    }
  }

  lemma NothingProcessed(c: Setup, s: Books)
    requires c.Valid()
    ensures RunIsc(c, s, 0) == s && s.isc[0..] + [] == s.isc && s.log + [] == s.log
  {
  }

  /** And for waiting in-storage requests. */
  lemma IscRunIffPayable(c: Setup, s: Books)
    requires c.Valid()
    ensures var n := |s.isc|;
            RunIsc(c, s, n).isc == StillWaiting(c, s, n) && RunIsc(c, s, n).log == s.log + Processed(c, s, n)
  {
    hide RunIsc, StillWaiting, Processed;
    var n := |s.isc|;
    ProcessedSoFar(c, s, n);
    assert s.isc[n..] + StillWaiting(c, s, n) == StillWaiting(c, s, n);
  }

  // ----- a whole tick ----------------------------------------------------------------------------------------------

  /** What leaves in a tick, in this order: all admin requests; then, after the refill phases that are due, the deferred
      requests, callbacks and in-storage requests that can be paid at their turn; then up to 4096 queued requests, and
      fewer only if nobody can pay any more. */
  lemma TickLeaves(c: Setup, s: Books, now: nat, delay: nat) returns (tail: seq<Entry>, stop: Books)
    requires Inv(c, s)
    ensures c.Valid()
    ensures var s2 := Refill(c, (DrainAdminKeeps(c, s); DrainAdmin(c, s)), if s.admin == [] then now else now + delay);
            var n2 := |s2.deferred|;
            var s3 := Resume(s2, n2);
            var n3 := |s3.callbacks|;
            var s4 := RunCallbacks(c, s3, n3);
            var n4 := |s4.isc|;
            && |tail| <= 4096 && (forall i :: 0 <= i < |tail| ==> tail[i].Served?)
            && Tick(c, s, now, delay).log ==
               s2.log + Resumed(s2, n2) + CalledBack(c, s3, n3) + Processed(c, s4, n4) + tail
            && (|tail| < 4096 ==>
                  Inv(c, stop) && NothingPayable(stop) && stop.log == Tick(c, s, now, delay).log)
  {
    hide Inv, DrainAdmin, Refill, Resume, RunCallbacks, RunIsc, Rounds, Resumed, CalledBack, Processed, SomePayable;
    InvSetup(c, s);
    DrainAdminKeeps(c, s);
    var s2 := Refill(c, DrainAdmin(c, s), if s.admin == [] then now else now + delay);
    DeferredLeaveIffPayable(c, s2);
    ResumeKeeps(c, s2, |s2.deferred|);
    var s3 := Resume(s2, |s2.deferred|);
    CallbacksRunIffPayable(c, s3);
    RunCallbacksKeeps(c, s3, |s3.callbacks|);
    var s4 := RunCallbacks(c, s3, |s3.callbacks|);
    IscRunIffPayable(c, s4);
    RunIscKeeps(c, s4, |s4.isc|);
    var s5 := RunIsc(c, s4, |s4.isc|);
    tail, stop := RoundsDispatch(c, s5, MaxDispatchPerTick);
  }
}
