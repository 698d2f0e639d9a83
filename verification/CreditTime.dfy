/** Refill phases and time: a phase per period boundary, and the rate that follows from it. */
module CreditTime {
  import opened CreditMath
  import opened CreditLedger
  import opened CreditInvariant
  import opened CreditRun

  /** n periods in ticks. */
  function Ticks(n: nat, period: nat): nat {
    n * period
  }

  lemma TicksAdd(m: nat, n: nat, period: nat)
    ensures Ticks(m + n, period) == Ticks(m, period) + Ticks(n, period)
    ensures Ticks(0, period) == 0 && Ticks(1, period) == period
  {
  }

  /** Period boundaries passed at time `at` when the next one is at `next`. */
  function Passed(next: nat, at: nat, period: nat): (n: nat)
    requires 0 < period
    ensures at < next + Ticks(n, period)
    ensures n > 0 ==> next + Ticks(n - 1, period) <= at
    decreases if next <= at then at - next + 1 else 0
  {
    TicksAdd(0, 0, period);
    if at < next then 0
    else
      var n := Passed(next + period, at, period);
      TicksAdd(n, 1, period);
      if n > 0 then TicksAdd(n - 1, 1, period); n + 1 else n + 1
  }

  /** A refill runs one phase for every boundary passed, whoever triggers it and however late. */
  lemma {:induction false} RefillRunsDuePhases(c: Setup, s: Books, at: nat)
    requires Inv(c, s) && c.Valid() && s.started
    ensures Refill(c, s, at).phases == s.phases + Passed(s.next, at, c.period)
    ensures Refill(c, s, at).next == s.next + Ticks(Passed(s.next, at, c.period), c.period)
    decreases if s.next <= at then at - s.next + 1 else 0
  {
    hide Ticks, Inv, Boundary;
    TicksAdd(0, 0, c.period);
    if s.next <= at {
      var p := Boundary(c, s);
      RefillRunsDuePhases(c, p, at);
      TicksAdd(Passed(p.next, at, c.period), 1, c.period);
    }
  }

  /** The time at which a tick refills: after the admin requests. */
  function RefillTime(s: Books, now: nat, delay: nat): nat {
    if s.admin == [] then now else now + delay
  }

  lemma TickClock(c: Setup, s: Books, now: nat, delay: nat)
    requires Inv(c, s)
    ensures Inv(c, DrainAdmin(c, s)) && Clock(DrainAdmin(c, s)) == Clock(s)
    ensures Clock(Tick(c, s, now, delay)) == Clock(Refill(c, DrainAdmin(c, s), RefillTime(s, now, delay)))
  {
    hide Inv, DrainAdmin, Refill, Resume, RunCallbacks, RunIsc, Rounds;
    InvSetup(c, s);
    DrainAdminKeeps(c, s);
    var s2 := Refill(c, DrainAdmin(c, s), RefillTime(s, now, delay));
    ResumeKeeps(c, s2, |s2.deferred|);
    var s3 := Resume(s2, |s2.deferred|);
    RunCallbacksKeeps(c, s3, |s3.callbacks|);
    var s4 := RunCallbacks(c, s3, |s3.callbacks|);
    RunIscKeeps(c, s4, |s4.isc|);
  }

  /** A tick runs exactly the phases that are due. */
  lemma TickRunsDuePhases(c: Setup, s: Books, now: nat, delay: nat)
    requires Inv(c, s) && c.Valid()
    ensures var r := Tick(c, s, now, delay);
            var n := if s.started then Passed(s.next, RefillTime(s, now, delay), c.period) else 0;
            r.started == s.started && r.phases == s.phases + n && r.next == s.next + Ticks(n, c.period)
  {
    hide Inv, DrainAdmin, Tick, Passed, Ticks;
    TicksAdd(0, 0, c.period);
    TickClock(c, s, now, delay);
    if s.started { RefillRunsDuePhases(c, DrainAdmin(c, s), RefillTime(s, now, delay)); }
  }

  /** When the timer was started, if no reset came in between: one period before the first phase. */
  function Origin(c: Setup, s: Books): int {
    s.next - Ticks(s.phases + 1, c.period)
  }

  /** The phases run fit in the time since the timer was started. */
  ghost predicate Timely(c: Setup, s: Books, now: nat) {
    if s.started then Ticks(s.phases, c.period) <= now - Origin(c, s) else s.phases == 0
  }

  /** The latest time an operation is aware of. */
  function TimeOf(s: Books, op: Op): nat {
    match op
    case SubmitOp(_, now) => now
    case IscOp(_, now) => now
    case TickOp(now, delay) => RefillTime(s, now, delay)
    case _ => 0
  }

  /** n more phases, the last of them no later than `at`. */
  lemma AdvanceIsTimely(phases: nat, next: nat, period: nat, n: nat, at: nat, limit: nat)
    requires Ticks(phases, period) <= limit - (next - Ticks(phases + 1, period)) && at <= limit
    requires n > 0 ==> next + Ticks(n - 1, period) <= at
    ensures next + Ticks(n, period) - Ticks(phases + n + 1, period) == next - Ticks(phases + 1, period)
    ensures Ticks(phases + n, period) <= limit - (next - Ticks(phases + 1, period))
  {
    hide Ticks;
    TicksAdd(phases + 1, n, period);
    TicksAdd(phases, 1, period);
    TicksAdd(phases, n, period);
    if n > 0 { TicksAdd(n - 1, 1, period); }
  }

  lemma TickIsTimely(c: Setup, s: Books, now: nat, delay: nat, limit: nat)
    requires Inv(c, s) && Timely(c, s, limit) && RefillTime(s, now, delay) <= limit
    ensures Timely(c, Tick(c, s, now, delay), limit)
    ensures s.started ==> Tick(c, s, now, delay).started && Origin(c, Tick(c, s, now, delay)) == Origin(c, s)
  {
    hide Inv, Tick, Ticks, Passed;
    InvSetup(c, s);
    TickRunsDuePhases(c, s, now, delay);
    if s.started {
      var at := RefillTime(s, now, delay);
      AdvanceIsTimely(s.phases, s.next, c.period, Passed(s.next, at, c.period), at, limit);
    }
  }

  /** Other operations run no phase, and at most start the timer. */
  lemma OtherClock(c: Setup, s: Books, op: Op)
    requires Inv(c, s) && op.Valid() && !op.ResetOp? && !op.TickOp?
    ensures var r := Step(c, s, op);
            && r.phases == s.phases && r.ever == s.ever
            && (s.started ==> r.started && r.next == s.next)
            && (!s.started && r.started ==> r.next == TimeOf(s, op) + c.period)
  {
    hide Inv, Tick, Reset, Pages, Paid, IsGate;
    hide AccountOk, Registered, AccountsOk, Within, DeferredOk, Conserved, Balanced;
    InvSetup(c, s);
  }

  lemma StepTick(c: Setup, s: Books, op: Op)
    requires Inv(c, s) && op.TickOp?
    ensures Step(c, s, op) == Tick(c, s, op.now, op.delay)
  {
    hide Inv, Tick;
  }

  lemma StepReset(c: Setup, s: Books)
    requires Inv(c, s)
    ensures var r := Step(c, s, ResetOp);
            r.started == s.started && r.phases == s.phases && r.ever == s.ever && r.next == 0
  {
    hide AllCleared, Queued, Requests, Registered, AccountsOk, Balanced, Within, DeferredOk, Conserved;
  }

  /** How far an operation moves the phases back: a reset with the timer running restarts them at tick 0. */
  function Rewinds(s: Books, op: Op): nat {
    if op.ResetOp? && s.started then s.next else 0
  }

  /** The grid of phases after one operation: a reset shifts it, the start of the timer creates it, nothing else
      changes it; and the phases run stay within it. */
  lemma StepMovesGrid(c: Setup, s: Books, op: Op, limit: nat)
    requires Inv(c, s) && op.Valid() && Timely(c, s, limit) && TimeOf(s, op) <= limit
    ensures var r := Step(c, s, op);
            && Timely(c, r, limit)
            && (s.started ==> r.started && Origin(c, r) == Origin(c, s) - Rewinds(s, op))
            && (!s.started && r.started ==> !op.ResetOp? && Origin(c, r) == TimeOf(s, op))
  {
    hide Inv, Step, Ticks, Tick;
    if op.TickOp? {
      TickIsTimely(c, s, op.now, op.delay, limit);
      TickKeepsTimer(c, s, op.now, op.delay);
      StepTick(c, s, op);
    } else if op.ResetOp? {
      StepReset(c, s);
    } else {
      OtherClock(c, s, op);
      TicksAdd(0, 1, c.period);
    }
  }

  lemma TickKeepsTimer(c: Setup, s: Books, now: nat, delay: nat)
    requires Inv(c, s)
    ensures Tick(c, s, now, delay).started == s.started
  {
    hide Inv, Tick, Ticks, Passed;
    InvSetup(c, s);
    TickRunsDuePhases(c, s, now, delay);
  }

  // ----- runs ------------------------------------------------------------------------------------------------

  /** No operation of the run is later than the limit. */
  ghost predicate Before(c: Setup, s: Books, ops: seq<Op>, limit: nat)
    requires Inv(c, s) && forall i :: 0 <= i < |ops| ==> ops[i].Valid()
    decreases |ops|
  {
    ops != [] ==> TimeOf(s, ops[0]) <= limit && Before(c, Step(c, s, ops[0]), ops[1..], limit)
  }

  /** The time of the operation that starts the timer. */
  ghost function StartTime(c: Setup, s: Books, ops: seq<Op>): nat
    requires Inv(c, s) && forall i :: 0 <= i < |ops| ==> ops[i].Valid()
    decreases |ops|
  {
    if ops == [] then 0
    else if Step(c, s, ops[0]).started then TimeOf(s, ops[0])
    else StartTime(c, Step(c, s, ops[0]), ops[1..])
  }

  /** How far all resets of the run together move the phases back. */
  ghost function Rewound(c: Setup, s: Books, ops: seq<Op>): nat
    requires Inv(c, s) && forall i :: 0 <= i < |ops| ==> ops[i].Valid()
    decreases |ops|
  {
    if ops == [] then 0 else Rewinds(s, ops[0]) + Rewound(c, Step(c, s, ops[0]), ops[1..])
  }

  /** Some reset of the run finds the timer running. */
  ghost predicate ResetWhileRunning(c: Setup, s: Books, ops: seq<Op>)
    requires Inv(c, s) && forall i :: 0 <= i < |ops| ==> ops[i].Valid()
    decreases |ops|
  {
    ops != [] && ((ops[0].ResetOp? && s.started) || ResetWhileRunning(c, Step(c, s, ops[0]), ops[1..]))
  }

  /** With the timer running: the grid shifts by exactly what the resets move back, and the shift is at least a
      period as soon as there is one. */
  lemma {:induction false} RunningGrid(c: Setup, s: Books, ops: seq<Op>, limit: nat)
    requires Inv(c, s) && (forall i :: 0 <= i < |ops| ==> ops[i].Valid()) && Before(c, s, ops, limit)
    requires s.started && Timely(c, s, limit)
    ensures var r := Run(c, s, ops);
            && r.started && Timely(c, r, limit)
            && Origin(c, r) == Origin(c, s) - Rewound(c, s, ops)
    ensures !ResetWhileRunning(c, s, ops) ==> Rewound(c, s, ops) == 0
    ensures ResetWhileRunning(c, s, ops) && 0 <= Origin(c, s) ==> c.period <= Rewound(c, s, ops)
    decreases |ops|
  {
    hide Inv, Timely, Step, Ticks;
    if ops != [] {
      StepMovesGrid(c, s, ops[0], limit);
      RunningGrid(c, Step(c, s, ops[0]), ops[1..], limit);
      TicksAdd(s.phases, 1, c.period);
    }
  }

  /** The grid of phases after any run from a start without timer: it begins when the timer was started, moved
      back by the resets since. */
  lemma {:induction false} GridAfterRun(c: Setup, s: Books, ops: seq<Op>, limit: nat)
    requires Inv(c, s) && (forall i :: 0 <= i < |ops| ==> ops[i].Valid()) && Before(c, s, ops, limit)
    requires !s.started && Timely(c, s, limit)
    ensures var r := Run(c, s, ops);
            && Timely(c, r, limit)
            && (r.started ==> Origin(c, r) == StartTime(c, s, ops) - Rewound(c, s, ops))
    ensures !ResetWhileRunning(c, s, ops) ==> Rewound(c, s, ops) == 0
    ensures ResetWhileRunning(c, s, ops) ==> c.period <= Rewound(c, s, ops)
    decreases |ops|
  {
    hide Inv, Timely, Step, Origin;
    if ops != [] {
      StepMovesGrid(c, s, ops[0], limit);
      var s1 := Step(c, s, ops[0]);
      if s1.started {
        RunningGrid(c, s1, ops[1..], limit);
      } else {
        GridAfterRun(c, s1, ops[1..], limit);
      }
    }
  }

  lemma InitialIsTimely(c: Setup, limit: nat)
    requires c.Valid()
    ensures Timely(c, Initial(c), limit) && !Initial(c).started
  {
    hide Ticks;
  }

  lemma RateArithmetic(ever: nat, phases: nat, budget: real, period: nat, elapsed: int)
    requires 0.0 <= budget && ever as real <= Times(phases, budget) && Ticks(phases, period) <= elapsed
    ensures ever as real * period as real <= budget * elapsed as real
  {
    var p, n, t := period as real, phases as real, elapsed as real;
    assert ever as real * p <= (n * budget) * p;
    assert (n * budget) * p == budget * (n * p);
    assert n * p <= t;
    assert budget * (n * p) <= budget * t;
  }

  lemma NoPhases(budget: real)
    ensures Times(0, budget) == 0.0
  {
  }

  /** The pages granted fit in the configured rate over so many ticks. */
  predicate WithinRate(c: Setup, pages: nat, elapsed: int) {
    pages as real * c.period as real <= c.rate.budget * elapsed as real
  }

  /** Any run from a new scheduler, resets included: all pages granted by a time fit in the configured rate over
      the time since the timer was started, plus exactly what the resets have moved the phases back. */
  lemma GrantsWithinRateAndRewinds(c: Setup, ops: seq<Op>, limit: nat)
    requires c.Valid() && (forall i :: 0 <= i < |ops| ==> ops[i].Valid()) && Inv(c, Initial(c))
    requires Before(c, Initial(c), ops, limit)
    ensures var s := Run(c, Initial(c), ops);
            if s.started then WithinRate(c, s.ever, limit - StartTime(c, Initial(c), ops) + Rewound(c, Initial(c), ops))
            else s.ever == 0
  {
    hide Inv, Run, Times, Before, Initial, Ticks;
    hide ChargedTo, Conserved, StartTime, Rewound, ResetWhileRunning, WithinRate;
    LedgerAfterAnyRun(c, ops, 0);
    InitialIsTimely(c, limit);
    GridAfterRun(c, Initial(c), ops, limit);
    var s := Run(c, Initial(c), ops);
    if s.started {
      RateBound(c, s, limit - Origin(c, s));
    } else {
      NoPhases(c.rate.budget);
    }
  }

  lemma RateBound(c: Setup, s: Books, elapsed: int)
    requires c.Valid() && s.ever as real <= Times(s.phases, c.rate.budget) && Ticks(s.phases, c.period) <= elapsed
    ensures WithinRate(c, s.ever, elapsed)
  {
    RateArithmetic(s.ever, s.phases, c.rate.budget, c.period, elapsed);
  }

  /** Without a reset while the timer runs, all pages granted by a time fit in the configured rate over the time
      since the timer was started. */
  lemma GrantsWithinRate(c: Setup, ops: seq<Op>, limit: nat)
    requires c.Valid() && (forall i :: 0 <= i < |ops| ==> ops[i].Valid()) && Inv(c, Initial(c))
    requires Before(c, Initial(c), ops, limit)
    requires !ResetWhileRunning(c, Initial(c), ops)
    ensures var s := Run(c, Initial(c), ops);
            if s.started then WithinRate(c, s.ever, limit - StartTime(c, Initial(c), ops)) else s.ever == 0
  {
    hide Inv, Run, Before, Initial, StartTime, Rewound, ResetWhileRunning, WithinRate, Timely, Origin;
    GrantsWithinRateAndRewinds(c, ops, limit);
    InitialIsTimely(c, limit);
    GridAfterRun(c, Initial(c), ops, limit);
  }

  lemma NextAfterTick(c: Setup, s: Books, now: nat, delay: nat)
    requires Inv(c, s) && s.started
    ensures RefillTime(s, now, delay) < Tick(c, s, now, delay).next
  {
    hide Inv, Tick, DrainAdmin, Refill;
    TickClock(c, s, now, delay);
  }

  /** The phases that a tick leaves behind are exactly those that the shifted grid allows. So they fit in the time
      since the timer was started if and only if no reset found the timer running. */
  lemma PhasesFitIffNoLiveReset(c: Setup, ops: seq<Op>, now: nat, delay: nat)
    requires c.Valid() && (forall i :: 0 <= i < |ops| ==> ops[i].Valid()) && Inv(c, Initial(c))
    requires Run(c, Initial(c), ops).started
    requires Before(c, Initial(c), ops, RefillTime(Run(c, Initial(c), ops), now, delay))
    ensures var s := Run(c, Initial(c), ops);
            var at := RefillTime(s, now, delay);
            var r := Tick(c, s, now, delay);
            var elapsed := at - StartTime(c, Initial(c), ops);
            && Ticks(r.phases, c.period) <= elapsed + Rewound(c, Initial(c), ops) < Ticks(r.phases + 1, c.period)
            && (Ticks(r.phases, c.period) <= elapsed <==> !ResetWhileRunning(c, Initial(c), ops))
  {
    hide Inv, Run, Before, Initial, Ticks, Tick, StartTime, Rewound, ResetWhileRunning, RefillTime;
    var s := Run(c, Initial(c), ops);
    var at := RefillTime(s, now, delay);
    InitialIsTimely(c, at);
    GridAfterRun(c, Initial(c), ops, at);
    TickIsTimely(c, s, now, delay, at);
    NextAfterTick(c, s, now, delay);
    TicksAdd(Tick(c, s, now, delay).phases, 1, c.period);
  }
}
