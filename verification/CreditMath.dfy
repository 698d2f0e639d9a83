/** Accounts of hil/scheduler/credit_scheduler.hh and one refill phase of tick() as a function of them.
    Doubles are real numbers, casts to integers are floors. */
module CreditMath {

  datatype OpType = Read | Write | CreditOnly | IscResult | OtherOp

  datatype Request = Request(uid: nat, op: OpType, length: nat)

  const PageSize: nat := 4096

  /** ceil(length / 4096) */
  function Pages(r: Request): nat {
    (r.length + PageSize - 1) / PageSize
  }

  datatype SloMode = NoTarget | IopsTarget | TailTarget

  datatype Account = Account(
    weight: nat, cap: nat, credit: nat, carry: real, consumed: nat, consumedHost: nat, consumedIsc: nat,
    slo: bool, active: bool, mode: SloMode, targetIops: real, boost: real, gates: nat,
    queue: seq<Request>, queueIsc: seq<Request>)

  type Users = map<nat, Account>

  /** pagesPerPeriod_ and the length of a period in seconds. */
  datatype Rate = Rate(budget: real, seconds: real) {
    predicate Valid() {
      0.0 <= budget && 0.0 <= seconds
    }

    /** The whole pages of a phase's budget. */
    function Whole(): (n: nat)
      requires Valid()
      ensures n as real <= budget
    {
      budget.Floor
    }

    /** The credit cap every account gets. */
    function Cap(): nat
      requires Valid()
    {
      var cap := (budget * 2000.0).Floor;
      if cap < 50 then 50 else cap
    }
  }

  /** What every account satisfies at all times. */
  predicate Sound(a: Account) {
    && 1 <= a.weight
    && a.credit <= a.cap
    && 0.0 <= a.carry
    && (!a.active ==> a.credit == 0)
    && 0.0 <= a.targetIops && 0.0 <= a.boost
    && a.consumedHost + a.consumedIsc <= a.consumed
  }

  predicate AllSound(users: Users) {
    forall u :: u in users ==> Sound(users[u])
  }

  function Headroom(a: Account): nat {
    if a.credit >= a.cap then 0 else a.cap - a.credit
  }

  function Min(x: nat, y: nat): nat {
    if x < y then x else y
  }

  // ----- guaranteed (SLO) users --------------------------------------------------------------------

  predicate IsSlo(a: Account) {
    a.active && a.slo
  }

  predicate IsBestEffort(a: Account) {
    a.active && !a.slo
  }

  predicate Lists(order: seq<nat>, users: Users) {
    forall i :: 0 <= i < |order| ==> order[i] in users
  }

  /** The total weight of the active users of one class. */
  function WeightSum(users: Users, order: seq<nat>, slo: bool): nat
    requires Lists(order, users)
  {
    if order == [] then 0
    else
      var a := users[order[|order| - 1]];
      WeightSum(users, order[..|order| - 1], slo) + if a.active && a.slo == slo then a.weight else 0
  }

  /** What the user would like from this phase, fractional carry included. */
  function Demand(r: Rate, a: Account, weights: nat): (d: real)
    requires r.Valid() && Sound(a) && 0 < weights
    ensures 0.0 <= d
  {
    var raw := match a.mode
               case IopsTarget => a.targetIops * r.seconds
               case TailTarget => r.budget * a.weight as real / weights as real * a.boost
               case NoTarget => r.budget * a.weight as real / weights as real;
    assert 0.0 <= r.budget * a.weight as real;
    assert 0.0 <= r.budget * a.weight as real / weights as real;
    raw + a.carry
  }

  function Want(r: Rate, a: Account, weights: nat): nat
    requires r.Valid() && Sound(a) && 0 < weights
  {
    Demand(r, a, weights).Floor
  }

  function WantSum(r: Rate, users: Users, order: seq<nat>, weights: nat): nat
    requires r.Valid() && AllSound(users) && Lists(order, users) && 0 < weights
  {
    if order == [] then 0
    else
      var a := users[order[|order| - 1]];
      WantSum(r, users, order[..|order| - 1], weights) + if IsSlo(a) then Want(r, a, weights) else 0
  }

  function Times(n: nat, scale: real): (x: real)
    ensures 0.0 <= scale ==> 0.0 <= x
  {
    n as real * scale
  }

  lemma TimesSum(m: nat, n: nat, scale: real)
    ensures Times(m + n, scale) == Times(m, scale) + Times(n, scale)
  {
  }

  function Ratio(whole: nat, total: nat): (x: real)
    requires 0 < total
    ensures 0.0 <= x
  {
    whole as real / total as real
  }

  lemma TimesRatio(whole: nat, total: nat)
    requires 0 < total
    ensures Times(total, Ratio(whole, total)) == whole as real
  {
  }

  /** The share of a demand when the demands exceed the budget. */
  function Scaled(want: nat, whole: nat, total: nat): (n: nat)
    requires whole < total
    ensures n as real <= Times(want, Ratio(whole, total))
  {
    Times(want, Ratio(whole, total)).Floor
  }

  /** What a guaranteed user is granted. */
  function SloGrant(r: Rate, a: Account, weights: nat, total: nat): nat
    requires r.Valid() && Sound(a) && 0 < weights
  {
    var want := Want(r, a, weights);
    if total <= r.Whole() then Min(want, Headroom(a)) else Min(Scaled(want, r.Whole(), total), Headroom(a))
  }

  function SloGrantSum(r: Rate, users: Users, order: seq<nat>, weights: nat, total: nat): nat
    requires r.Valid() && AllSound(users) && Lists(order, users) && 0 < weights
  {
    if order == [] then 0
    else
      var a := users[order[|order| - 1]];
      var rest := SloGrantSum(r, users, order[..|order| - 1], weights, total);
      if IsSlo(a) then rest + SloGrant(r, a, weights, total) else rest
  }

  lemma {:induction false} GrantsWithinWants(r: Rate, users: Users, order: seq<nat>, weights: nat, total: nat)
    requires r.Valid() && AllSound(users) && Lists(order, users) && 0 < weights
    ensures SloGrantSum(r, users, order, weights, total) <= WantSum(r, users, order, weights) || r.Whole() < total
    decreases |order|
  {
    if order != [] && total <= r.Whole() {
      GrantsWithinWants(r, users, order[..|order| - 1], weights, total);
    }
  }

  lemma {:induction false} ScaledGrantsWithinShare(r: Rate, users: Users, order: seq<nat>, weights: nat, total: nat)
    requires r.Valid() && AllSound(users) && Lists(order, users) && 0 < weights
    requires r.Whole() < total
    ensures SloGrantSum(r, users, order, weights, total) as real <=
            Times(WantSum(r, users, order, weights), Ratio(r.Whole(), total))
    decreases |order|
  {
    hide Times, Ratio, Scaled, Want;
    if order != [] {
      var rest := order[..|order| - 1];
      var a := users[order[|order| - 1]];
      ScaledGrantsWithinShare(r, users, rest, weights, total);
      if IsSlo(a) {
        TimesSum(WantSum(r, users, rest, weights), Want(r, a, weights), Ratio(r.Whole(), total));
      }
    }
  }

  /** The grants to guaranteed users never exceed the whole pages of the budget, also when overloaded. */
  lemma SloGrantsWithinBudget(r: Rate, users: Users, order: seq<nat>, weights: nat)
    requires r.Valid() && AllSound(users) && Lists(order, users) && 0 < weights
    ensures SloGrantSum(r, users, order, weights, WantSum(r, users, order, weights)) <= r.Whole()
  {
    hide Times, Ratio, WantSum, SloGrantSum;
    var total := WantSum(r, users, order, weights);
    if total <= r.Whole() {
      GrantsWithinWants(r, users, order, weights, total);
    } else {
      ScaledGrantsWithinShare(r, users, order, weights, total);
      TimesRatio(r.Whole(), total);
    }
  }

  // ----- best-effort users -------------------------------------------------------------------------

  function Part(spill: real, weight: nat, weights: nat): (x: real)
    requires 0 < weights
    ensures 0.0 <= spill ==> 0.0 <= x
  {
    assert 0.0 <= weight as real / weights as real;
    spill * (weight as real / weights as real)
  }

  lemma PartSum(spill: real, m: nat, n: nat, weights: nat)
    requires 0 < weights
    ensures Part(spill, m + n, weights) == Part(spill, m, weights) + Part(spill, n, weights)
    ensures Part(spill, weights, weights) == spill && Part(spill, 0, weights) == 0.0
  {
    var w := weights as real;
    assert (m + n) as real / w == m as real / w + n as real / w;
  }

  /** A best-effort user's share of the spill plus what it carried over. */
  function Due(a: Account, spill: real, weights: nat): real
    requires 0 < weights
  {
    Part(spill, a.weight, weights) + a.carry
  }

  /** What a best-effort user is granted; the rest of its due is carried to the next phase. */
  function BestEffortGrant(a: Account, spill: real, weights: nat): (n: nat)
    requires 0 < weights && 0.0 <= spill && Sound(a)
    ensures n as real <= Due(a, spill, weights)
  {
    Min(Due(a, spill, weights).Floor, Headroom(a))
  }

  // ----- one phase ---------------------------------------------------------------------------------

  /** The sums over all active users that a phase is based on, and what it leaves to best effort. */
  datatype Totals = Totals(rate: Rate, sloWeight: nat, restWeight: nat, wants: nat, spill: real) {
    predicate Valid() {
      rate.Valid() && 0.0 <= spill
    }
  }

  function TotalsOf(r: Rate, users: Users, order: seq<nat>): (t: Totals)
    requires r.Valid() && AllSound(users) && Lists(order, users)
    ensures t.Valid() && t.rate == r
  {
    var sloWeight := WeightSum(users, order, true);
    var restWeight := WeightSum(users, order, false);
    if sloWeight == 0 then Totals(r, 0, restWeight, 0, r.budget)
    else
      var wants := WantSum(r, users, order, sloWeight);
      SloGrantsWithinBudget(r, users, order, sloWeight);
      var given := SloGrantSum(r, users, order, sloWeight, wants);
      var spill := if wants <= r.Whole() then (r.Whole() - given) as real else 0.0;
      Totals(r, sloWeight, restWeight, wants, spill)
  }

  /** An account after one refill phase. */
  function AfterPhase(t: Totals, a: Account): Account
    requires t.Valid() && Sound(a)
  {
    if IsSlo(a) && 0 < t.sloWeight then
      var due := Demand(t.rate, a, t.sloWeight);
      a.(credit := a.credit + SloGrant(t.rate, a, t.sloWeight, t.wants), carry := due - due.Floor as real)
    else if IsBestEffort(a) && 0.0 < t.spill && 0 < t.restWeight then
      var n := BestEffortGrant(a, t.spill, t.restWeight);
      a.(credit := a.credit + n, carry := Due(a, t.spill, t.restWeight) - n as real)
    else a
  }

  /** A phase never takes credit away, never passes the cap, and touches only credit and carry. */
  lemma AfterPhaseIsSound(t: Totals, a: Account)
    requires t.Valid() && Sound(a)
    ensures var b := AfterPhase(t, a);
            && Sound(b)
            && a.credit <= b.credit
            && b == a.(credit := b.credit, carry := b.carry)
            && (!a.active ==> b == a)
  {
  }

  /** Pages granted to the listed users in one phase. */
  function GrantSum(t: Totals, users: Users, order: seq<nat>): nat
    requires t.Valid() && AllSound(users) && Lists(order, users)
  {
    if order == [] then 0
    else
      var a := users[order[|order| - 1]];
      AfterPhaseIsSound(t, a);
      GrantSum(t, users, order[..|order| - 1]) + (AfterPhase(t, a).credit - a.credit)
  }

  /** Fractions carried by best-effort accounts. */
  function CarrySum(users: Users, order: seq<nat>): real
    requires Lists(order, users)
  {
    if order == [] then 0.0
    else
      var a := users[order[|order| - 1]];
      CarrySum(users, order[..|order| - 1]) + if a.slo then 0.0 else a.carry
  }

  function AllAfterPhase(t: Totals, users: Users): Users
    requires t.Valid() && AllSound(users)
  {
    map u | u in users :: AfterPhase(t, users[u])
  }

  /** The part of the spill that falls to the listed best-effort users. */
  function Spilled(t: Totals, users: Users, order: seq<nat>): real
    requires t.Valid() && Lists(order, users)
  {
    if 0.0 < t.spill && 0 < t.restWeight then Part(t.spill, WeightSum(users, order, false), t.restWeight) else 0.0
  }

  function GuaranteedSum(t: Totals, users: Users, order: seq<nat>): nat
    requires t.Valid() && AllSound(users) && Lists(order, users)
  {
    if t.sloWeight == 0 then 0 else SloGrantSum(t.rate, users, order, t.sloWeight, t.wants)
  }

  /** Grants and new carries together are the guaranteed grants, the spill and the old carries. */
  lemma {:induction false} PhaseBalances(t: Totals, users: Users, order: seq<nat>)
    requires t.Valid() && AllSound(users) && Lists(order, users)
    ensures GrantSum(t, users, order) as real + CarrySum(AllAfterPhase(t, users), order) ==
            GuaranteedSum(t, users, order) as real + Spilled(t, users, order) + CarrySum(users, order)
    decreases |order|
  {
    if order == [] {
      if 0 < t.restWeight { PartSum(t.spill, 0, 0, t.restWeight); }
    } else {
      var rest := order[..|order| - 1];
      var a := users[order[|order| - 1]];
      PhaseBalances(t, users, rest);
      AfterPhaseIsSound(t, a);
      if 0 < t.restWeight { PartSum(t.spill, WeightSum(users, rest, false), a.weight, t.restWeight); }
      hide Demand, SloGrant, Part, BestEffortGrant, Sound;
    }
  }

  /** One phase hands out, and moves into carries, at most its budget. */
  lemma PhaseWithinBudget(r: Rate, users: Users, order: seq<nat>)
    requires r.Valid() && AllSound(users) && Lists(order, users)
    ensures var t := TotalsOf(r, users, order);
            GrantSum(t, users, order) as real + CarrySum(AllAfterPhase(t, users), order) <=
            r.budget + CarrySum(users, order)
  {
    var t := TotalsOf(r, users, order);
    PhaseBalances(t, users, order);
    if 0 < t.restWeight { PartSum(t.spill, 0, t.restWeight, t.restWeight); }
    if 0 < t.sloWeight { SloGrantsWithinBudget(r, users, order, t.sloWeight); }
    hide Demand, SloGrant, Part, Sound, SloGrantSum, WantSum, WeightSum, CarrySum, GrantSum, AllAfterPhase;
  }

  /** Unless the guaranteed users ask for more than there is, a phase with active best-effort users gives away
      everything: the whole budget without guaranteed users, its whole pages with them. */
  lemma PhaseGivesEverything(r: Rate, users: Users, order: seq<nat>)
    requires r.Valid() && AllSound(users) && Lists(order, users)
    ensures var t := TotalsOf(r, users, order);
            0 < t.restWeight && (t.sloWeight == 0 || t.wants <= r.Whole()) ==>
              GrantSum(t, users, order) as real + CarrySum(AllAfterPhase(t, users), order) ==
              (if t.sloWeight == 0 then r.budget else r.Whole() as real) + CarrySum(users, order)
  {
    var t := TotalsOf(r, users, order);
    PhaseBalances(t, users, order);
    if 0 < t.restWeight { PartSum(t.spill, 0, t.restWeight, t.restWeight); }
    if 0 < t.sloWeight { SloGrantsWithinBudget(r, users, order, t.sloWeight); }
    hide Demand, SloGrant, Part, Sound, SloGrantSum, WantSum, WeightSum, CarrySum, GrantSum, AllAfterPhase;
  }
}
