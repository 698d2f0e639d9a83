/** What a guaranteed user is guaranteed: its target phase by phase, or its share when there is too little. */
module CreditDelivery {
  import opened CreditMath

  /** The cap: two thousand phases' worth of pages, and fifty at least. */
  lemma CapIs(r: Rate)
    requires r.Valid()
    ensures 50 <= r.Cap()
    ensures if 2000.0 * r.budget < 51.0 then r.Cap() == 50
            else r.Cap() as real <= 2000.0 * r.budget < (r.Cap() + 1) as real
  {
  }

  /** Pages per phase a user is to get: its target rate over the period, or its share of the budget by weight, which
      a tail target multiplies. */
  function Target(t: Totals, a: Account): real
    requires 0 < t.sloWeight
  {
    match a.mode
    case IopsTarget => a.targetIops * t.rate.seconds
    case NoTarget => Part(t.rate.budget, a.weight, t.sloWeight)
    case TailTarget => Part(t.rate.budget, a.weight, t.sloWeight) * a.boost
  }

  /** A guaranteed user in a phase in which the demands of all fit. */
  ghost predicate Guaranteed(t: Totals, a: Account) {
    t.Valid() && Sound(a) && IsSlo(a) && 0 < t.sloWeight && t.wants <= t.rate.Whole()
  }

  lemma DemandIsTarget(t: Totals, a: Account)
    requires t.rate.Valid() && Sound(a) && 0 < t.sloWeight
    ensures Demand(t.rate, a, t.sloWeight) == Target(t, a) + a.carry
  {
    var b, w, s := t.rate.budget, a.weight as real, t.sloWeight as real;
    assert b * w / s == b * (w / s);
  }

  /** It gets its target: what is granted and what is carried on are together the target and what was carried before,
      and less than a page is carried. Only the cap can stop that. */
  lemma TargetIsMet(t: Totals, a: Account)
    requires Guaranteed(t, a)
    ensures var b := AfterPhase(t, a);
            && 0.0 <= b.carry < 1.0
            && (b.credit < a.cap ==> b.credit as real + b.carry == a.credit as real + a.carry + Target(t, a))
            && ((Target(t, a) + a.carry).Floor <= a.cap - a.credit <==>
                b.credit as real + b.carry == a.credit as real + a.carry + Target(t, a))
  {
    hide Demand, Target;
    DemandIsTarget(t, a);
    var due := Demand(t.rate, a, t.sloWeight);
    assert due - 1.0 < due.Floor as real <= due;
  }

  /** n phases in a row. */
  function AfterPhases(ts: seq<Totals>, a: Account): (b: Account)
    requires Sound(a) && forall i :: 0 <= i < |ts| ==> ts[i].Valid()
    ensures Sound(b) && b == a.(credit := b.credit, carry := b.carry)
  {
    if ts == [] then a
    else
      var c := AfterPhases(ts[..|ts| - 1], a);
      AfterPhaseIsSound(ts[|ts| - 1], c);
      AfterPhase(ts[|ts| - 1], c)
  }

  /** In each of these phases the demands of all fit, and the user stays below its cap. */
  ghost predicate Unhindered(ts: seq<Totals>, a: Account, seconds: real)
    requires Sound(a) && forall i :: 0 <= i < |ts| ==> ts[i].Valid()
    decreases |ts|
  {
    ts != [] ==>
      var t := ts[|ts| - 1];
      && Unhindered(ts[..|ts| - 1], a, seconds)
      && t.Valid() && 0 < t.sloWeight && t.wants <= t.rate.Whole() && t.rate.seconds == seconds
      && AfterPhases(ts, a).credit < a.cap
  }

  /** A user with a rate as its target gets exactly that rate over any number of phases, as long as demands fit and it
      stays below its cap: the pages it has got differ from the rate by a fraction of a page. */
  lemma {:induction false} RateIsMetOverPhases(ts: seq<Totals>, a: Account, seconds: real)
    requires Sound(a) && a.mode == IopsTarget && IsSlo(a) && 0.0 <= a.carry < 1.0
    requires (forall i :: 0 <= i < |ts| ==> ts[i].Valid()) && Unhindered(ts, a, seconds)
    ensures var b := AfterPhases(ts, a);
            && 0.0 <= b.carry < 1.0
            && b.credit as real + b.carry == a.credit as real + a.carry + Times(|ts|, a.targetIops * seconds)
    decreases |ts|
  {
    hide AfterPhase, Times, Sound;
    var n, x := |ts|, a.targetIops * seconds;
    NoneAndOne(x);
    if n > 0 {
      RateIsMetOverPhases(ts[..n - 1], a, seconds);
      TargetIsMet(ts[n - 1], AfterPhases(ts[..n - 1], a));
      TimesSum(n - 1, 1, x);
    }
  }

  lemma NoneAndOne(x: real)
    ensures Times(0, x) == 0.0 && Times(1, x) == x
  {
  }

  /** Without targets the users' shares are the whole budget. */
  function ShareSum(t: Totals, users: Users, order: seq<nat>): real
    requires 0 < t.sloWeight && Lists(order, users)
  {
    if order == [] then 0.0
    else
      var a := users[order[|order| - 1]];
      ShareSum(t, users, order[..|order| - 1]) + if IsSlo(a) then Part(t.rate.budget, a.weight, t.sloWeight) else 0.0
  }

  lemma {:induction false} SharesArePart(t: Totals, users: Users, order: seq<nat>)
    requires 0 < t.sloWeight && Lists(order, users)
    ensures ShareSum(t, users, order) == Part(t.rate.budget, WeightSum(users, order, true), t.sloWeight)
    decreases |order|
  {
    hide Part;
    PartSum(t.rate.budget, 0, 0, t.sloWeight);
    if order != [] {
      var rest, a := order[..|order| - 1], users[order[|order| - 1]];
      SharesArePart(t, users, rest);
      PartSum(t.rate.budget, WeightSum(users, rest, true), a.weight, t.sloWeight);
    }
  }

  lemma SharesAreTheBudget(r: Rate, users: Users, order: seq<nat>)
    requires r.Valid() && AllSound(users) && Lists(order, users) && 0 < WeightSum(users, order, true)
    ensures var t := TotalsOf(r, users, order);
            0 < t.sloWeight && ShareSum(t, users, order) == r.budget
  {
    hide Part, WantSum, SloGrantSum, WeightSum;
    var t := TotalsOf(r, users, order);
    SharesArePart(t, users, order);
    PartSum(r.budget, 0, 0, t.sloWeight);
  }

  /** When the demands exceed the budget, every guaranteed user gets its share of the whole pages in proportion to
      what it wanted, rounded down, or fills up its cap; best effort gets nothing. */
  lemma OverloadIsShared(r: Rate, users: Users, order: seq<nat>, u: nat)
    requires r.Valid() && AllSound(users) && Lists(order, users) && u in users && IsSlo(users[u])
    requires var t := TotalsOf(r, users, order); 0 < t.sloWeight && r.Whole() < t.wants
    ensures var t := TotalsOf(r, users, order);
            var a := users[u];
            var b := AfterPhase(t, a);
            var want := (Target(t, a) + a.carry).Floor;
            && a.credit <= b.credit && t.spill == 0.0
            && (b.credit == a.cap ||
                (b.credit - a.credit) * t.wants <= want * r.Whole() < (b.credit - a.credit + 1) * t.wants)
  {
    hide WantSum, SloGrantSum, WeightSum, Target, Demand;
    var t := TotalsOf(r, users, order);
    var a := users[u];
    DemandIsTarget(t, a);
    AfterPhaseIsSound(t, a);
    ScaledIs(Want(r, a, t.sloWeight), r.Whole(), t.wants);
    hide Scaled;
  }

  lemma ScaledIs(want: nat, whole: nat, total: nat)
    requires whole < total
    ensures var n := Scaled(want, whole, total); n * total <= want * whole < (n + 1) * total
  {
    Cancel(want as real, whole as real, total as real);
    FloorBounds(want, whole, total);
    Bounds(Scaled(want, whole, total), want, whole, total, Times(want, Ratio(whole, total)));
  }

  lemma FloorBounds(want: nat, whole: nat, total: nat)
    requires whole < total
    ensures var x := Times(want, Ratio(whole, total));
            Scaled(want, whole, total) as real <= x < (Scaled(want, whole, total) + 1) as real
  {
    hide Times, Ratio;
  }

  function Mul(x: real, y: real): real {
    x * y
  }

  lemma Bounds(n: nat, want: nat, whole: nat, total: nat, x: real)
    requires n as real <= x < (n + 1) as real && 0 < total && Mul(x, total as real) == Mul(want as real, whole as real)
    ensures n * total <= want * whole < (n + 1) * total
  {
    hide Mul;
    var t := total as real;
    Scale(n as real, x, t);
    Below(x, (n + 1) as real, t);
    ProductsNotMore(n, total, want, whole);
    ProductsLess(want, whole, n + 1, total);
  }

  lemma ProductsNotMore(a: nat, b: nat, c: nat, d: nat)
    requires Mul(a as real, b as real) <= Mul(c as real, d as real)
    ensures a * b <= c * d
  {
    Whole(a, b);
    Whole(c, d);
    NotMore(a * b, c * d);
  }

  lemma ProductsLess(a: nat, b: nat, c: nat, d: nat)
    requires Mul(a as real, b as real) < Mul(c as real, d as real)
    ensures a * b < c * d
  {
    Whole(a, b);
    Whole(c, d);
    Less(a * b, c * d);
  }

  lemma NotMore(a: int, b: int)
    requires a as real <= b as real
    ensures a <= b
  {
  }

  lemma Less(a: int, b: int)
    requires (a as real) < b as real
    ensures a < b
  {
  }

  lemma Whole(m: nat, n: nat)
    ensures (m * n) as real == m as real * n as real
  {
  }

  lemma Scale(x: real, y: real, t: real)
    requires x <= y && 0.0 < t
    ensures Mul(x, t) <= Mul(y, t)
  {
    assert (y - x) * t >= 0.0;
    assert (y - x) * t == y * t - x * t;
  }

  lemma Below(x: real, y: real, t: real)
    requires x < y && 0.0 < t
    ensures Mul(x, t) < Mul(y, t)
  {
    assert (y - x) * t > 0.0;
    assert (y - x) * t == y * t - x * t;
  }

  lemma Cancel(w: real, p: real, t: real)
    requires 0.0 < t
    ensures (w * (p / t)) * t == w * p
  {
    assert (p / t) * t == p;
  }
}
