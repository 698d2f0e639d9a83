/** The list of demands that tick() builds for the guaranteed users, against the sums over all users. */
module CreditDemands {
  import opened CreditMath

  datatype SloDemand = SloDemand(uid: nat, demand: nat, headroom: nat, carry: real)

  function DemandOf(r: Rate, u: nat, a: Account, weights: nat): (d: SloDemand)
    requires r.Valid() && Sound(a) && 0 < weights
    ensures d.uid == u
  {
    var due := Demand(r, a, weights);
    SloDemand(u, due.Floor, Headroom(a), due - due.Floor as real)
  }

  function DemandsOf(r: Rate, users: Users, order: seq<nat>, weights: nat): (d: seq<SloDemand>)
    requires r.Valid() && AllSound(users) && Lists(order, users) && 0 < weights
    ensures forall k :: 0 <= k < |d| ==>
              d[k].uid in order && d[k].uid in users && IsSlo(users[d[k].uid])
              && d[k] == DemandOf(r, d[k].uid, users[d[k].uid], weights)
  {
    if order == [] then []
    else
      var u := order[|order| - 1];
      var rest := DemandsOf(r, users, order[..|order| - 1], weights);
      if IsSlo(users[u]) then rest + [DemandOf(r, u, users[u], weights)] else rest
  }

  /** Every guaranteed user has exactly one demand. */
  lemma {:induction false} DemandsAreComplete(r: Rate, users: Users, order: seq<nat>, weights: nat)
    requires r.Valid() && AllSound(users) && Lists(order, users) && 0 < weights
    requires forall i, j :: 0 <= i < j < |order| ==> order[i] != order[j]
    ensures var d := DemandsOf(r, users, order, weights);
            && (forall j, k :: 0 <= j < k < |d| ==> d[j].uid != d[k].uid)
            && (forall u :: u in order && IsSlo(users[u]) ==> exists k :: 0 <= k < |d| && d[k].uid == u)
    decreases |order|
  {
    hide DemandOf;
    if order != [] {
      var rest := order[..|order| - 1];
      var last := order[|order| - 1];
      DemandsAreComplete(r, users, rest, weights);
      var d, d0 := DemandsOf(r, users, order, weights), DemandsOf(r, users, rest, weights);
      forall u | u in order && IsSlo(users[u])
        ensures exists k :: 0 <= k < |d| && d[k].uid == u
      {
        if u == last {
          assert d[|d| - 1].uid == u;
        } else {
          assert u in rest;
          var k :| 0 <= k < |d0| && d0[k].uid == u;
          assert d[k].uid == u;
        }
      }
    }
  }

  function GrantOf(d: SloDemand, whole: nat, total: nat): nat {
    Min(if total <= whole then d.demand else Scaled(d.demand, whole, total), d.headroom)
  }

  function GrantsOf(d: seq<SloDemand>, whole: nat, total: nat): nat {
    if d == [] then 0 else GrantsOf(d[..|d| - 1], whole, total) + GrantOf(d[|d| - 1], whole, total)
  }

  /** The grants on the list are the grants over all users. */
  lemma {:induction false} GrantsOfDemands(r: Rate, users: Users, order: seq<nat>, weights: nat, total: nat)
    requires r.Valid() && AllSound(users) && Lists(order, users) && 0 < weights
    ensures GrantsOf(DemandsOf(r, users, order, weights), r.Whole(), total) ==
            SloGrantSum(r, users, order, weights, total)
    decreases |order|
  {
    hide Scaled, Demand;
    if order != [] {
      var d0 := DemandsOf(r, users, order[..|order| - 1], weights);
      var u := order[|order| - 1];
      GrantsOfDemands(r, users, order[..|order| - 1], weights, total);
      if IsSlo(users[u]) {
        assert (d0 + [DemandOf(r, u, users[u], weights)])[..|d0|] == d0;
      } else {
        assert d0 + [] == d0;
      }
    }
  }

  /** An account after the first half of a phase, which grants to guaranteed users only. */
  function Halfway(t: Totals, a: Account): Account
    requires t.Valid() && Sound(a)
  {
    if IsSlo(a) && 0 < t.sloWeight then AfterPhase(t, a) else a
  }

  ghost predicate GuaranteedDone(t: Totals, was: Users, users: Users)
    requires t.Valid() && AllSound(was)
  {
    users.Keys == was.Keys && forall u :: u in was ==> users[u] == Halfway(t, was[u])
  }

  /** An account after its part of the spill. */
  function Shared(a: Account, spill: real, weights: nat): Account
    requires Sound(a) && 0.0 < spill && 0 < weights
  {
    if IsBestEffort(a) then
      var n := BestEffortGrant(a, spill, weights);
      a.(credit := a.credit + n, carry := Due(a, spill, weights) - n as real)
    else a
  }

  /** The second half changes best-effort accounts only, and only if there is something to share. */
  lemma SecondHalf(t: Totals, a: Account)
    requires t.Valid() && Sound(a)
    ensures var b := Halfway(t, a);
            && Sound(b)
            && AfterPhase(t, a) == if 0.0 < t.spill && 0 < t.restWeight then Shared(b, t.spill, t.restWeight) else b
  {
    hide Demand, SloGrant, BestEffortGrant, Due;
    AfterPhaseIsSound(t, a);
  }

  lemma GrantIsAfterPhase(t: Totals, u: nat, a: Account, b: Account, d: SloDemand, grant: nat)
    requires t.Valid() && Sound(a) && IsSlo(a) && 0 < t.sloWeight
    requires d == DemandOf(t.rate, u, a, t.sloWeight) && grant == GrantOf(d, t.rate.Whole(), t.wants)
    requires b == a.(credit := a.credit + grant, carry := d.carry)
    ensures b == AfterPhase(t, a)
  {
    hide Scaled, Demand;
  }

  /** The three passes over the guaranteed users are the first half of a phase. */
  lemma GrantsAreAfterPhase(was: Users, order: seq<nat>, t: Totals, users: Users, demands: seq<SloDemand>,
      grants: seq<nat>)
    requires Lists(order, was) && (forall u :: u in was ==> u in order)
    requires (forall i, j :: 0 <= i < j < |order| ==> order[i] != order[j])
    requires AllSound(was) && t.Valid() && 0 < t.sloWeight
    requires demands == DemandsOf(t.rate, was, order, t.sloWeight) && |grants| == |demands| && users.Keys == was.Keys
    requires forall k :: 0 <= k < |demands| ==> grants[k] == GrantOf(demands[k], t.rate.Whole(), t.wants)
    requires forall k :: 0 <= k < |demands| ==>
               var a := was[demands[k].uid];
               users[demands[k].uid] == a.(credit := a.credit + grants[k], carry := demands[k].carry)
    requires forall u :: u in users && (forall k :: 0 <= k < |demands| ==> demands[k].uid != u) ==> users[u] == was[u]
    ensures GuaranteedDone(t, was, users)
  {
    hide Sound, AfterPhase, DemandOf, GrantOf, DemandsOf;
    DemandsAreComplete(t.rate, was, order, t.sloWeight);
    forall u | u in was
      ensures users[u] == Halfway(t, was[u])
    {
      if k :| 0 <= k < |demands| && demands[k].uid == u {
        GrantIsAfterPhase(t, u, was[u], users[u], demands[k], grants[k]);
      }
    }
  }
}
