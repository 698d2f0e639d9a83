/** GenericCache of icl/generic_cache.cc: the lines, the eviction grid and the write path. */
module GenericCaches {
  import opened Outcomes
  import opened WriteBack

  datatype CacheFault = CacheCorrupted

  datatype EvictMode = Superpage | All

  datatype EvictPolicy = Random | Fifo | LeastRecentlyUsed

  /** Lines with a smaller stamp go first. */
  function Stamp(policy: EvictPolicy, l: Line): nat {
    match policy
    case Random => 0
    case Fifo => l.insertedAt
    case LeastRecentlyUsed => l.lastAccessed
  }

  function AllSlots(h: Shape): (r: set<Slot>)
    ensures forall s :: s in r <==> h.Has(s)
  {
    set i, j | 0 <= i < h.sets && 0 <= j < h.ways :: Slot(i, j)
  }

  // ----- which lines an eviction gives up --------------------------------------------------------------------------

  /** Lines of the same unit, and of the same unit on the same I/O channel. */
  predicate SameRow(h: Shape, a: Line, b: Line)
    requires h.Valid()
  {
    a.tag % h.units == b.tag % h.units
  }

  predicate SamePosition(h: Shape, a: Line, b: Line)
    requires h.Valid() && 0 < h.columns * h.units
  {
    && a.tag % h.units == b.tag % h.units
    && a.tag % (h.columns * h.units) / h.units == b.tag % (h.columns * h.units) / h.units
  }

  /** Every valid line has one of the same kind among the lines at `done`. */
  ghost predicate Represented(h: Shape, lines: map<Slot, Line>, done: set<Slot>, mode: EvictMode)
    requires h.Valid() && 0 < h.columns * h.units
  {
    forall x :: x in lines && lines[x].valid ==>
      exists s :: && s in done && s in lines
                  && if mode == All then SamePosition(h, lines[s], lines[x]) else SameRow(h, lines[s], lines[x])
  }

  ghost predicate OnePerRow(h: Shape, lines: map<Slot, Line>, done: set<Slot>)
    requires h.Valid()
  {
    forall a, b :: a in done && b in done && a in lines && b in lines && SameRow(h, lines[a], lines[b]) ==> a == b
  }

  ghost predicate OnePerPosition(h: Shape, lines: map<Slot, Line>, done: set<Slot>)
    requires h.Valid() && 0 < h.columns * h.units
  {
    forall a, b :: a in done && b in done && a in lines && b in lines && SamePosition(h, lines[a], lines[b]) ==> a == b
  }

  /** The only line of the target set among those at `done`. */
  ghost predicate OnlyTarget(done: set<Slot>, target: nat, x: Slot) {
    x in done && x.set_ == target && forall s :: s in done && s.set_ == target ==> s == x
  }

  /** The victims of an eviction for the target set. MODE_ALL gives up one line for each position that has any;
      MODE_SUPERPAGE one for each row that has any, and one line of the target set on top if it would not get any. */
  ghost predicate Victims(h: Shape, lines: map<Slot, Line>, done: set<Slot>, mode: EvictMode, target: nat)
    requires h.Valid() && 0 < h.columns * h.units
  {
    && (forall s :: s in done ==> s in lines && lines[s].valid)
    && (exists s :: s in done && s.set_ == target)
    && Represented(h, lines, done, mode)
    && if mode == All then OnePerPosition(h, lines, done)
       else OnePerRow(h, lines, done) || exists x :: OnlyTarget(done, target, x) && OnePerRow(h, lines, done - {x})
  }

  /** No valid line of the same position, or row, goes before the one at s. */
  ghost predicate Earliest(h: Shape, lines: map<Slot, Line>, mode: EvictMode, policy: EvictPolicy, s: Slot)
    requires h.Valid() && 0 < h.columns * h.units && s in lines
  {
    forall x :: && x in lines && lines[x].valid
                && (if mode == All then SamePosition(h, lines[s], lines[x]) else SameRow(h, lines[s], lines[x])) ==>
        Stamp(policy, lines[s]) <= Stamp(policy, lines[x])
  }

  /** No line of the target set goes before the one at s. */
  ghost predicate EarliestOfSet(lines: map<Slot, Line>, policy: EvictPolicy, target: nat, s: Slot)
    requires s in lines
  {
    forall x :: x in lines && lines[x].valid && x.set_ == target ==> Stamp(policy, lines[s]) <= Stamp(policy, lines[x])
  }

  /** The victims are the earliest of their kind, but for a line that was added for the target set: that one is the
      earliest of the set. */
  ghost predicate InPolicy(h: Shape, lines: map<Slot, Line>, done: set<Slot>, mode: EvictMode, policy: EvictPolicy,
      target: nat)
    requires h.Valid() && 0 < h.columns * h.units && forall s :: s in done ==> s in lines
  {
    || (forall s :: s in done ==> Earliest(h, lines, mode, policy, s))
    || exists x :: && OnlyTarget(done, target, x) && EarliestOfSet(lines, policy, target, x)
                   && forall s :: s in done && s != x ==> Earliest(h, lines, mode, policy, s)
  }

  /** Between the two states such victims were given up for tag t, one of their lines now holds t, and no other line
      changed. */
  ghost predicate Evicted(h: Shape, c: Cache, c': Cache, mode: EvictMode, policy: EvictPolicy, t: nat)
    requires h.Valid() && 0 < h.columns * h.units
  {
    exists done :: && Victims(h, c.lines, done, mode, SetIndex(h, t))
                   && InPolicy(h, c.lines, done, mode, policy, SetIndex(h, t)) && Replaced(c, c', done, t)
  }

  ghost predicate Replaced(c: Cache, c': Cache, done: set<Slot>, t: nat) {
    && c'.lines.Keys == c.lines.Keys
    && (forall s :: s in c.lines && s !in done ==> c'.lines[s] == c.lines[s])
    && (forall s :: s in c.lines && s in done ==> !c'.lines[s].valid || c'.lines[s].tag == t)
  }

  lemma VictimsAreLines(h: Shape, lines: map<Slot, Line>, done: set<Slot>, mode: EvictMode, target: nat)
    requires h.Valid() && 0 < h.columns * h.units && Victims(h, lines, done, mode, target)
    ensures forall s :: s in done ==> s in lines
  {
  }

  lemma EvictedBy(h: Shape, c: Cache, c1: Cache, c2: Cache, done: set<Slot>, mode: EvictMode, policy: EvictPolicy,
      s: Slot, l: Line)
    requires h.Valid() && 0 < h.columns * h.units && c1.lines == c.lines && Drained(h, c1, c2, done)
    requires Victims(h, c.lines, done, mode, SetIndex(h, l.tag)) && s in c.lines && c.lines[s].valid
    requires s in c2.lines && !c2.lines[s].valid && forall x :: x in done ==> x in c.lines
    requires InPolicy(h, c.lines, done, mode, policy, SetIndex(h, l.tag))
    ensures Evicted(h, c, SetLine(c2, s, l), mode, policy, l.tag)
  {
    hide Victims, InPolicy, Logged, View;
    assert s in done;
    assert Replaced(c, SetLine(c2, s, l), done, l.tag);
  }

  /** The candidate in column k of row r goes no later than the line at x. */
  ghost predicate Leads(policy: EvictPolicy, lines: map<Slot, Line>, grid: map<(nat, nat), Slot>, r: nat, k: nat,
      x: Slot)
    requires x in lines
  {
    (r, k) in grid && grid[(r, k)] in lines && Stamp(policy, lines[grid[(r, k)]]) <= Stamp(policy, lines[x])
  }

  /** Every valid line has such a candidate in its row. */
  ghost predicate RowsLed(h: Shape, policy: EvictPolicy, lines: map<Slot, Line>, grid: map<(nat, nat), Slot>)
    requires h.Valid()
  {
    forall x :: x in lines && lines[x].valid ==>
      exists k: nat :: Leads(policy, lines, grid, lines[x].tag % h.units, k, x)
  }

  /** Putting the better of two neighbours in the place of both keeps that. */
  lemma MergeLeads(h: Shape, policy: EvictPolicy, lines: map<Slot, Line>, g: map<(nat, nat), Slot>,
      g': map<(nat, nat), Slot>, r: nat, k: nat)
    requires h.Valid() && RowsLed(h, policy, lines, g)
    requires forall i: nat, j: nat :: (i, j) in g && (i, j) != (r, k) && (i, j) != (r, k + 1) ==>
      (i, j) in g' && g'[(i, j)] == g[(i, j)]
    requires forall j :: (j == k || j == k + 1) && (r, j) in g && g[(r, j)] in lines ==>
      && (r, k + 1) in g' && g'[(r, k + 1)] in lines
      && Stamp(policy, lines[g'[(r, k + 1)]]) <= Stamp(policy, lines[g[(r, j)]])
    ensures RowsLed(h, policy, lines, g')
  {
    forall x | x in lines && lines[x].valid
      ensures exists j: nat :: Leads(policy, lines, g', lines[x].tag % h.units, j, x)
    {
      var i := lines[x].tag % h.units;
      var j: nat :| Leads(policy, lines, g, i, j, x);
      assert Leads(policy, lines, g', i, if i == r && j == k then k + 1 else j, x);
    }
  }

  lemma GridArea(h: Shape)
    requires h.Valid()
    ensures 0 < h.columns * h.units
  {
    var _ := IoPosition(h, 0);
  }

  class GenericCache {
    const h: Shape
    const lineSize: nat
    const useWriteCaching: bool
    const evictMode: EvictMode
    const cacheData: array2<Line>
    const evictData: array2<Option<Slot>>

    const policy: EvictPolicy
    /** The random choices of the random policy. */
    const coin: nat -> bool
    /** The time after each operation of the memory and the flash below. */
    const clock: nat -> Tick
    var steps: nat

    /** What was stored below at first, and what has been sent there since. */
    ghost const origin: map<(nat, nat), int>
    ghost var sent: seq<Sent>

    constructor (h: Shape, lineSize: nat, useWriteCaching: bool, evictMode: EvictMode, policy: EvictPolicy,
                 coin: nat -> bool, clock: nat -> Tick, ghost store: map<(nat, nat), int>)
      requires h.Valid()
      ensures Valid() && fresh(cacheData) && fresh(evictData) && this.h == h && this.lineSize == lineSize
      ensures this.useWriteCaching == useWriteCaching && this.evictMode == evictMode && this.policy == policy
      ensures origin == store && sent == [] && State().store == store && forall t :: !Cached(State(), t)
    {
      this.h, this.lineSize, this.useWriteCaching, this.evictMode := h, lineSize, useWriteCaching, evictMode;
      this.policy, this.coin, this.clock, this.origin := policy, coin, clock, store;
      steps, sent := 0, [];
      cacheData := new Line[h.sets, h.ways]((i, j) => EmptyLine);
      evictData := new Option<Slot>[h.units, h.columns]((i, j) => None);
      new;
      hide Inv, Cached;
      EmptyKeeps(h, State());
    }

    ghost predicate Shaped()
    {
      && h.Valid()
      && cacheData.Length0 == h.sets && cacheData.Length1 == h.ways
      && evictData.Length0 == h.units && evictData.Length1 == h.columns
    }

    ghost function Lines(): (r: map<Slot, Line>)
      requires Shaped()
      reads this, cacheData
    {
      map s | s in AllSlots(h) :: cacheData[s.set_, s.way]
    }

    ghost function State(): Cache
      requires Shaped()
      reads this, cacheData
    {
      Cache(Lines(), Stored(origin, sent), sent)
    }

    ghost predicate Consistent()
      reads this, cacheData
    {
      Shaped() && Inv(h, State())
    }

    ghost predicate GridEmpty()
      requires Shaped()
      reads evictData
    {
      forall r, k :: 0 <= r < h.units && 0 <= k < h.columns ==> evictData[r, k] == None
    }

    ghost predicate Valid()
      reads this, cacheData, evictData
    {
      Consistent() && GridEmpty()
    }

    /** Candidates are valid lines in the row of their unit. */
    ghost predicate GridOk()
      requires Shaped()
      reads cacheData, evictData
    {
      forall r, k :: 0 <= r < h.units && 0 <= k < h.columns && evictData[r, k].Some? ==>
          Candidate(evictData[r, k].value, r)
    }

    ghost predicate Candidate(s: Slot, row: nat)
      requires Shaped()
      reads cacheData
    {
      h.Has(s) && cacheData[s.set_, s.way].valid && cacheData[s.set_, s.way].tag % h.units == row
    }

    method PutLine(s: Slot, l: Line)
      requires Shaped() && h.Has(s)
      modifies cacheData
      ensures State() == SetLine(old(State()), s, l)
    {
      cacheData[s.set_, s.way] := l;
      assert Lines() == old(Lines())[s := l];
    }

    method FtlWrite(lpn: nat, unit: nat, data: int) returns (at: Tick)
      requires Shaped()
      modifies this
      ensures State() == Send(old(State()), lpn, unit, data)
    {
      sent := sent + [Sent(lpn, unit, data)];
      assert sent[..|sent| - 1] == old(sent);
      at := Later();
    }

    method FtlWriteTag(t: nat, data: int)
      requires Shaped()
      modifies this
      ensures State() == SendTag(h, old(State()), t, data)
    {
      var _ := FtlWrite(t / h.units, t % h.units, data);
    }

    method Later() returns (at: Tick)
      requires Shaped()
      modifies this`steps
      ensures State() == old(State())
    {
      at := clock(steps);
      steps := steps + 1;
    }

    method GetValidWay(t: nat) returns (way: nat)
      requires Shaped() && Placed(h, Lines())
      ensures way <= h.ways
      ensures if way < h.ways then Holds(State(), Slot(SetIndex(h, t), way), t) else !Cached(State(), t)
    {
      var i := SetIndex(h, t);
      way := 0;
      while way < h.ways && !(cacheData[i, way].valid && cacheData[i, way].tag == t)
        invariant way <= h.ways
        invariant forall w :: 0 <= w < way ==> !(cacheData[i, w].valid && cacheData[i, w].tag == t)
      {
        way := way + 1;
      }
      assert way == h.ways ==> forall s :: s in Lines() && s.set_ == i ==> !(Lines()[s].valid && Lines()[s].tag == t);
    }

    /** The empty line of a set that has been empty longest, or waySize if there is none. */
    method GetEmptyWay(i: nat) returns (way: nat)
      requires Shaped() && i < h.sets
      ensures way <= h.ways
      ensures way == h.ways ==> forall w :: 0 <= w < h.ways ==> cacheData[i, w].valid
      ensures way < h.ways ==>
                && !cacheData[i, way].valid
                && forall w :: 0 <= w < h.ways && !cacheData[i, w].valid ==>
                    cacheData[i, way].insertedAt <= cacheData[i, w].insertedAt
    {
      way := h.ways;
      var least: nat := MaxTick;
      for w := 0 to h.ways
        invariant way <= h.ways
        invariant if way == h.ways then least == MaxTick && forall v :: 0 <= v < w ==> cacheData[i, v].valid
                  else && way < w && !cacheData[i, way].valid && least == cacheData[i, way].insertedAt
                       && forall v :: 0 <= v < w && !cacheData[i, v].valid ==> least <= cacheData[i, v].insertedAt
      {
        var l := cacheData[i, w];
        if !l.valid && least > l.insertedAt {
          least := l.insertedAt;
          way := w;
        }
      }
    }

    ghost function StampAt(s: Slot): nat
      requires Shaped() && h.Has(s)
      reads cacheData
    {
      Stamp(policy, cacheData[s.set_, s.way])
    }

    /** compareFunction: the earlier one of the arguments that are there. */
    method Compare(a: Option<Slot>, b: Option<Slot>) returns (r: Option<Slot>)
      requires Shaped() && (a.Some? ==> h.Has(a.value)) && (b.Some? ==> h.Has(b.value))
      modifies this`steps
      ensures (r == a || r == b) && (r.None? <==> a.None? && b.None?) && State() == old(State())
      ensures r.Some? && a.Some? ==> StampAt(r.value) <= StampAt(a.value)
      ensures r.Some? && b.Some? ==> StampAt(r.value) <= StampAt(b.value)
    {
      if a.Some? && b.Some? {
        var l, m := cacheData[a.value.set_, a.value.way], cacheData[b.value.set_, b.value.way];
        var first := match policy
                     case Random => coin(steps)
                     case Fifo => l.insertedAt < m.insertedAt
                     case LeastRecentlyUsed => l.lastAccessed < m.lastAccessed;
        steps := steps + 1;
        r := if first then a else b;
      } else {
        r := if a.Some? then a else b;
      }
    }

    /** evictCache(tick, true): flush every candidate and empty the grid. */
    method EvictCache(tick: Tick) returns (ghost done: set<Slot>)
      requires Consistent() && GridOk()
      modifies this, cacheData, evictData
      ensures Valid() && Drained(h, old(State()), State(), done)
      ensures forall r, k :: 0 <= r < h.units && 0 <= k < h.columns && old(evictData[r, k]).Some? ==>
          old(evictData[r, k]).value in done
      ensures forall s :: s in done ==> s in old(GridSlots())
    {
      hide Inv, Drained;
      done := {};
      ghost var slots := GridSlots();
      assert forall r, k :: 0 <= r < h.units && 0 <= k < h.columns && evictData[r, k].Some? ==>
          evictData[r, k].value in slots;
      NothingDrained(h, State());
      for r := 0 to h.units
        invariant Consistent() && Drained(h, old(State()), State(), done)
        invariant forall i, k :: 0 <= i < r && 0 <= k < h.columns ==>
                    evictData[i, k] == None && (old(evictData[i, k]).Some? ==> old(evictData[i, k]).value in done)
        invariant forall i, k :: r <= i < h.units && 0 <= k < h.columns ==> evictData[i, k] == old(evictData[i, k])
        invariant done <= slots
      {
        assert forall k :: 0 <= k < h.columns && evictData[r, k].Some? ==>
            CandidateOf(old(Lines()), evictData[r, k].value, r);
        assert forall k :: 0 <= k < h.columns && evictData[r, k].Some? ==> evictData[r, k].value in slots;
        done := EvictRow(r, tick, old(State()), done, slots);
      }
    }

    /** The lines in the grid. */
    ghost function GridSlots(): set<Slot>
      requires Shaped()
      reads evictData
    {
      set r, k | 0 <= r < h.units && 0 <= k < h.columns && evictData[r, k].Some? :: evictData[r, k].value
    }

    ghost predicate CandidateOf(lines: map<Slot, Line>, s: Slot, row: nat)
      requires Shaped()
    {
      s in lines && h.Has(s) && lines[s].tag % h.units == row
    }

    method EvictRow(r: nat, tick: Tick, ghost c0: Cache, ghost done0: set<Slot>, ghost slots: set<Slot>)
      returns (ghost done: set<Slot>)
      requires Consistent() && r < h.units && Drained(h, c0, State(), done0) && done0 <= slots
      requires forall k :: 0 <= k < h.columns && evictData[r, k].Some? ==> evictData[r, k].value in slots
      requires forall k :: 0 <= k < h.columns && evictData[r, k].Some? ==>
          CandidateOf(c0.lines, evictData[r, k].value, r)
      modifies this, cacheData, evictData
      ensures Consistent() && Drained(h, c0, State(), done) && done0 <= done <= slots
      ensures forall k :: 0 <= k < h.columns ==>
                evictData[r, k] == None && (old(evictData[r, k]).Some? ==> old(evictData[r, k]).value in done)
      ensures forall i, k :: 0 <= i < h.units && 0 <= k < h.columns && i != r ==>
          evictData[i, k] == old(evictData[i, k])
    {
      hide Inv, Drained;
      done := done0;
      for k := 0 to h.columns
        invariant Consistent() && Drained(h, c0, State(), done) && done0 <= done <= slots
        invariant forall j :: 0 <= j < k ==>
                    evictData[r, j] == None && (old(evictData[r, j]).Some? ==> old(evictData[r, j]).value in done)
        invariant forall j :: k <= j < h.columns ==> evictData[r, j] == old(evictData[r, j])
        invariant forall i, j :: 0 <= i < h.units && 0 <= j < h.columns && i != r ==>
            evictData[i, j] == old(evictData[i, j])
      {
        if evictData[r, k].Some? {
          var s := evictData[r, k].value;
          DrainedLine(h, c0, State(), done, s);
          assert State().lines[s] == cacheData[s.set_, s.way];
          FlushCandidate(s, r, tick, c0, done);
          done := done + {s};
          evictData[r, k] := None;
        }
      }
    }

    /** One candidate of the grid row `row`. */
    method FlushCandidate(s: Slot, row: nat, tick: Tick, ghost c0: Cache, ghost done: set<Slot>)
      requires Consistent() && h.Has(s) && Drained(h, c0, State(), done)
      requires cacheData[s.set_, s.way].valid ==> cacheData[s.set_, s.way].tag % h.units == row
      modifies this, cacheData
      ensures Consistent() && Drained(h, c0, State(), done + {s})
    {
      hide Inv, Drained, View;
      ghost var before := State();
      var at := tick;
      var l := cacheData[s.set_, s.way];
      if l.valid && l.dirty {
        at := FtlWrite(l.tag / h.units, row, l.data);
      }
      PutLine(s, l.(valid := false, tag := 0, insertedAt := at, lastAccessed := at, dirty := false));
      DrainOne(h, c0, before, done, s, row, at);
    }

    // ----- victims ---------------------------------------------------------------------------------------

    /** Some valid line among those before way w of set i has this position. */
    ghost predicate Covers(r: nat, k: nat, i: nat, w: nat)
      requires Shaped()
      reads cacheData
    {
      exists s :: Seen(s, i, w) && ValidAt(s, r, k)
    }

    ghost predicate ValidAt(s: Slot, r: nat, k: nat)
      requires Shaped() && h.Has(s)
      reads cacheData
    {
      cacheData[s.set_, s.way].valid && IoPosition(h, cacheData[s.set_, s.way].tag) == (r, k)
    }

    predicate Seen(s: Slot, i: nat, w: nat) {
      h.Has(s) && (s.set_ < i || (s.set_ == i && s.way < w))
    }

    ghost predicate GridCovers(i: nat, w: nat)
      requires Shaped()
      reads cacheData, evictData
    {
      forall r, k :: 0 <= r < h.units && 0 <= k < h.columns ==> (evictData[r, k].Some? <==> Covers(r, k, i, w))
    }

    /** Candidates stand at their own position. */
    ghost predicate InPlace()
      requires Shaped() && GridOk()
      reads cacheData, evictData
    {
      forall r, k :: 0 <= r < h.units && 0 <= k < h.columns && evictData[r, k].Some? ==>
          ValidAt(evictData[r, k].value, r, k)
    }

    /** No line seen so far goes before the candidate at its position. */
    ghost predicate BestSoFar(i: nat, w: nat)
      requires Shaped() && GridOk()
      reads cacheData, evictData
    {
      forall r, k, x ::
        0 <= r < h.units && 0 <= k < h.columns && evictData[r, k].Some? && Seen(x, i, w) && ValidAt(x, r, k) ==>
          StampAt(evictData[r, k].value) <= StampAt(x)
    }

    /** No line goes before the candidate at its position, apart from the candidate at `at`. */
    ghost predicate BestAt(at: (nat, nat))
      requires Shaped() && GridOk()
      reads cacheData, evictData
    {
      forall r, k, x ::
        0 <= r < h.units && 0 <= k < h.columns && (r, k) != at && evictData[r, k].Some? &&
        h.Has(x) && ValidAt(x, r, k) ==>
          StampAt(evictData[r, k].value) <= StampAt(x)
    }

    /** No line goes before a candidate in its row, apart from the candidate at `at`. */
    ghost predicate BestInRow(at: (nat, nat))
      requires Shaped() && GridOk()
      reads cacheData, evictData
    {
      forall r, k, x ::
        0 <= r < h.units && 0 <= k < h.columns && (r, k) != at && evictData[r, k].Some? && Candidate(x, r) ==>
          StampAt(evictData[r, k].value) <= StampAt(x)
    }

    /** The earliest valid line for every position of the grid that has one. */
    method CollectCandidates()
      requires Valid()
      modifies this`steps, evictData
      ensures State() == old(State()) && Consistent() && GridOk() && GridCovers(h.sets, 0) && InPlace()
      ensures BestSoFar(h.sets, 0)
    {
      hide Inv, IoPosition;
      for i := 0 to h.sets
        invariant State() == old(State()) && Consistent() && GridOk() && GridCovers(i, 0) && InPlace()
        invariant BestSoFar(i, 0)
      {
        for w := 0 to h.ways
          invariant State() == old(State()) && Consistent() && GridOk() && GridCovers(i, w) && InPlace()
          invariant BestSoFar(i, w)
        {
          Offer(Slot(i, w));
        }
        assert forall s :: Seen(s, i, h.ways) <==> Seen(s, i + 1, 0);
      }
    }

    /** A line has one position if it is valid, and none otherwise. */
    lemma LineAt(s: Slot)
      requires Shaped() && h.Has(s)
      ensures var l := cacheData[s.set_, s.way];
              && (forall r: nat, k: nat :: ValidAt(s, r, k) <==> l.valid && (r, k) == IoPosition(h, l.tag))
              && (l.valid ==> Candidate(s, IoPosition(h, l.tag).0))
    {
    }

    /** Compare one line with the candidate at its position. */
    method Offer(s: Slot)
      requires Consistent() && GridOk() && h.Has(s) && GridCovers(s.set_, s.way) && InPlace()
      requires BestSoFar(s.set_, s.way)
      modifies this`steps, evictData
      ensures State() == old(State()) && Consistent() && GridOk() && GridCovers(s.set_, s.way + 1) && InPlace()
      ensures BestSoFar(s.set_, s.way + 1)
    {
      hide Inv, IoPosition, ValidAt;
      var l := cacheData[s.set_, s.way];
      forall x | Seen(x, s.set_, s.way + 1)
        ensures Seen(x, s.set_, s.way) || x == s
      {
        assert x == Slot(x.set_, x.way) && s == Slot(s.set_, s.way);
      }
      assert forall x :: Seen(x, s.set_, s.way) ==> Seen(x, s.set_, s.way + 1);
      if l.valid {
        var p := IoPosition(h, l.tag);
        LineAt(s);
        var best := Compare(evictData[p.0, p.1], Some(s));
        assert Seen(s, s.set_, s.way + 1);
        evictData[p.0, p.1] := best;
      } else {
        LineAt(s);
      }
    }

    ghost predicate RowHas(r: nat)
      requires Shaped() && r < h.units
      reads evictData
    {
      exists j :: 0 <= j < h.columns && evictData[r, j].Some?
    }

    ghost predicate LastHas(r: nat)
      requires Shaped() && r < h.units
      reads evictData
    {
      evictData[r, h.columns - 1].Some?
    }

    /** MODE_SUPERPAGE keeps one line per row that has any, in the last column. */
    method Compact()
      requires Consistent() && GridOk()
      modifies this`steps, evictData
      ensures State() == old(State()) && Consistent() && GridOk()
      ensures forall r, k :: 0 <= r < h.units && 0 <= k < h.columns - 1 ==> evictData[r, k] == None
      ensures forall r :: 0 <= r < h.units ==> LastHas(r) == old(RowHas(r))
      ensures (old(RowsOccupied()) ==> RowsOccupied()) && LastOnly((h.units, 0))
      ensures old(RowsBest()) ==> BestInRow((h.units, 0))
    {
      hide Inv, RowsBest, BestInRow;
      for r := 0 to h.units
        invariant State() == old(State()) && Consistent() && GridOk()
        invariant forall i, k :: 0 <= i < r && 0 <= k < h.columns - 1 ==> evictData[i, k] == None
        invariant forall i :: 0 <= i < r ==> LastHas(i) == old(RowHas(i))
        invariant old(RowsBest()) ==> RowsBest()
        invariant forall i, k :: r <= i < h.units && 0 <= k < h.columns ==> evictData[i, k] == old(evictData[i, k])
      {
        CompactRow(r);
      }
      if old(RowsBest()) { LastIsBest(); }
    }

    lemma RowLeader(x: Slot) returns (j: nat)
      requires Shaped() && RowsBest() && x in Lines() && Lines()[x].valid
      ensures Leads(policy, Lines(), Grid(), Lines()[x].tag % h.units, j, x)
    {
      j :| Leads(policy, Lines(), Grid(), Lines()[x].tag % h.units, j, x);
    }

    /** What is left of each row is the best of all lines of the row. */
    lemma LastIsBest()
      requires Shaped() && GridOk() && RowsBest() && LastOnly((h.units, 0))
      ensures BestInRow((h.units, 0))
    {
      hide RowsLed;
      forall r, k, x | 0 <= r < h.units && 0 <= k < h.columns && evictData[r, k].Some? && Candidate(x, r)
        ensures StampAt(evictData[r, k].value) <= StampAt(x)
      {
        var j := RowLeader(x);
        assert evictData[r, j].Some?;
      }
    }

    /** The candidates by position. */
    ghost function Grid(): map<(nat, nat), Slot>
      requires Shaped()
      reads evictData
    {
      map r: nat, k: nat | r < h.units && k < h.columns && evictData[r, k].Some? :: (r, k) := evictData[r, k].value
    }

    lemma GridIs()
      requires Shaped()
      ensures forall r: nat, k: nat :: (r, k) in Grid() <==> r < h.units && k < h.columns && evictData[r, k].Some?
      ensures forall r: nat, k: nat :: (r, k) in Grid() ==> Some(Grid()[(r, k)]) == evictData[r, k]
    {
    }

    lemma StampIs(s: Slot)
      requires Shaped() && h.Has(s)
      ensures s in Lines() && StampAt(s) == Stamp(policy, Lines()[s])
    {
    }

    ghost predicate RowsBest()
      requires Shaped()
      reads this, cacheData, evictData
    {
      RowsLed(h, policy, Lines(), Grid())
    }

    method CompactRow(r: nat)
      requires Consistent() && GridOk() && r < h.units
      modifies this`steps, evictData
      ensures State() == old(State()) && Consistent() && GridOk()
      ensures forall k :: 0 <= k < h.columns - 1 ==> evictData[r, k] == None
      ensures LastHas(r) == old(RowHas(r))
      ensures old(RowsBest()) ==> RowsBest()
      ensures forall i, k :: 0 <= i < h.units && i != r && 0 <= k < h.columns ==>
          evictData[i, k] == old(evictData[i, k])
    {
      hide Inv, RowsBest;
      for k := 0 to h.columns - 1
        invariant State() == old(State()) && Consistent() && GridOk()
        invariant forall j :: 0 <= j < k ==> evictData[r, j] == None
        invariant evictData[r, k].Some? <==> exists j :: 0 <= j <= k && old(evictData[r, j]).Some?
        invariant old(RowsBest()) ==> RowsBest()
        invariant forall j :: k < j < h.columns ==> evictData[r, j] == old(evictData[r, j])
        invariant forall i, j :: 0 <= i < h.units && i != r && 0 <= j < h.columns ==>
            evictData[i, j] == old(evictData[i, j])
      {
        Merge(r, k);
      }
    }

    /** The better of two neighbours moves to the right. */
    method Merge(r: nat, k: nat)
      requires Consistent() && GridOk() && r < h.units && k + 1 < h.columns
      modifies this`steps, evictData
      ensures State() == old(State()) && Consistent() && GridOk() && evictData[r, k] == None
      ensures evictData[r, k + 1].Some? <==> old(evictData[r, k]).Some? || old(evictData[r, k + 1]).Some?
      ensures old(RowsBest()) ==> RowsBest()
      ensures forall i, j :: 0 <= i < h.units && 0 <= j < h.columns && (i != r || (j != k && j != k + 1)) ==>
          evictData[i, j] == old(evictData[i, j])
    {
      hide Inv, RowsLed, Grid, StampAt;
      GridIs();
      ghost var g := Grid();
      var a, b := evictData[r, k], evictData[r, k + 1];
      var best := Compare(a, b);
      evictData[r, k + 1] := best;
      evictData[r, k] := None;
      GridIs();
      if old(RowsBest()) {
        if best.Some? { StampIs(best.value); }
        if a.Some? { StampIs(a.value); }
        if b.Some? { StampIs(b.value); }
        MergeLeads(h, policy, Lines(), g, Grid(), r, k);
      }
    }

    predicate In(candidate: Option<Slot>, target: nat) {
      candidate.Some? && candidate.value.set_ == target
    }

    /** Some candidate is in the given set. */
    ghost predicate Targets(target: nat)
      requires Shaped()
      reads evictData
    {
      exists r, k :: 0 <= r < h.units && 0 <= k < h.columns && In(evictData[r, k], target)
    }

    method HaveTarget(target: nat) returns (have: bool)
      requires Consistent() && GridOk()
      ensures have == Targets(target)
    {
      have := false;
      for r := 0 to h.units
        invariant have == exists i, k :: 0 <= i < r && 0 <= k < h.columns && In(evictData[i, k], target)
      {
        for k := 0 to h.columns
          invariant have == exists i, j :: 0 <= i <= r && 0 <= j < h.columns && (i < r || j < k)
                                           && In(evictData[i, j], target)
        {
          if evictData[r, k].Some? {
            var s := evictData[r, k].value;
            assert s in Lines() && State().lines[s] == cacheData[s.set_, s.way];
            if SetIndex(h, cacheData[s.set_, s.way].tag) == target { have := true; }
          }
        }
      }
    }

    /** The preferred line of a full set. */
    method PickLine(target: nat) returns (line: Option<Slot>)
      requires Shaped() && target < h.sets && SetFull(target)
      modifies this`steps
      ensures State() == old(State())
      ensures line.Some? && line.value.set_ == target && line.value.way < h.ways
      ensures forall w :: 0 <= w < h.ways ==> StampAt(line.value) <= StampAt(Slot(target, w))
    {
      line := None;
      for w := 0 to h.ways
        invariant State() == old(State()) && (line == None <==> w == 0)
        invariant line.Some? ==> line.value.set_ == target && line.value.way < h.ways
        invariant line.Some? ==> forall v :: 0 <= v < w ==> StampAt(line.value) <= StampAt(Slot(target, v))
      {
        if cacheData[target, w].valid {
          line := Compare(line, Some(Slot(target, w)));
        }
      }
    }

    /** The line of a full set to give up when the grid holds none of it. */
    method AddTarget(target: nat) returns (ghost x: Slot, ghost at: (nat, nat))
      requires Consistent() && GridOk() && target < h.sets && SetFull(target)
      modifies this`steps, evictData
      ensures State() == old(State()) && Consistent() && GridOk() && Targets(target)
      ensures at.0 < h.units && at.1 < h.columns && evictData[at.0, at.1] == Some(x) && x.set_ == target && h.Has(x)
      ensures forall w :: 0 <= w < h.ways ==> StampAt(x) <= StampAt(Slot(target, w))
      ensures old(InPlace()) ==> InPlace()
      ensures (old(Occupied()) ==> Occupied()) && (old(RowsOccupied()) ==> RowsOccupied())
      ensures (old(BestAt((h.units, 0))) ==> BestAt(at)) && (old(BestInRow((h.units, 0))) ==> BestInRow(at))
      ensures old(LastOnly((h.units, 0))) ==> LastOnly(at)
      ensures old(!Targets(target)) ==> OnlyAt(target, at)
    {
      hide Inv, GridOk, InPlace, Occupied, RowsOccupied, BestAt, BestInRow, LastOnly, Targets, RowHas, ValidAt, OnlyAt;
      var line := PickLine(target);
      if line.Some? {
        var s := line.value;
        var p := IoPosition(h, cacheData[s.set_, s.way].tag);
        LineAt(s);
        PlaceTarget(target, s, p);
        x, at := s, p;
      }
    }

    /** No candidate but the one at `at` is in the target set. */
    ghost predicate OnlyAt(target: nat, at: (nat, nat))
      requires Shaped()
      reads evictData
    {
      forall r, k :: 0 <= r < h.units && 0 <= k < h.columns && (r, k) != at ==> !In(evictData[r, k], target)
    }

    method PlaceTarget(ghost target: nat, x: Slot, at: (nat, nat))
      requires Shaped() && GridOk() && at.0 < h.units && at.1 < h.columns
      requires h.Has(x) && x.set_ == target && ValidAt(x, at.0, at.1) && Candidate(x, at.0)
      modifies evictData
      ensures GridOk() && Targets(target) && evictData[at.0, at.1] == Some(x)
      ensures old(InPlace()) ==> InPlace()
      ensures (old(Occupied()) ==> Occupied()) && (old(RowsOccupied()) ==> RowsOccupied())
      ensures (old(BestAt((h.units, 0))) ==> BestAt(at)) && (old(BestInRow((h.units, 0))) ==> BestInRow(at))
      ensures old(LastOnly((h.units, 0))) ==> LastOnly(at)
      ensures old(!Targets(target)) ==> OnlyAt(target, at)
    {
      hide ValidAt, StampAt;
      evictData[at.0, at.1] := Some(x);
      assert In(evictData[at.0, at.1], target);
      forall r | 0 <= r < h.units && old(RowHas(r))
        ensures RowHas(r)
      {
        var k :| 0 <= k < h.columns && old(evictData[r, k]).Some?;
        assert evictData[r, k].Some?;
      }
    }

    /** Choose victims, at least one of them in the full set `target`. */
    method ChooseVictims(target: nat)
      requires Valid() && target < h.sets && SetFull(target)
      modifies this`steps, evictData
      ensures State() == old(State()) && Consistent() && GridOk() && Targets(target)
      ensures 0 < h.columns * h.units && Victims(h, Lines(), GridSlots(), evictMode, target)
      ensures (forall s :: s in GridSlots() ==> s in Lines())
              && InPolicy(h, Lines(), GridSlots(), evictMode, policy, target)
    {
      hide BestSoFar, BestAt, BestInRow, InPolicy, RowsBest;
      hide Inv, Victims, GridOk, GridCovers, InPlace, Occupied, RowsOccupied, LastOnly, Targets, GridSlots, RowHas;
      hide GridEmpty, Lines;
      GridArea(h);
      CollectCandidates();
      LinesOccupy();
      if evictMode == Superpage { Compact(); }
      var have := HaveTarget(target);
      if !have { ForceTarget(target); }
      if evictMode == All {
        OnePerPositionChosen(target);
      } else if have {
        OnePerRowChosen(target);
      }
      CandidatesAreLines();
      if have { PolicyHolds(target); }
    }

    /** Add a line of the target set, which has no candidate yet. */
    method ForceTarget(target: nat)
      requires Consistent() && GridOk() && target < h.sets && SetFull(target) && !Targets(target)
      requires evictMode == All ==> InPlace() && Occupied() && BestAt((h.units, 0))
      requires evictMode == Superpage ==> RowsOccupied() && LastOnly((h.units, 0)) && BestInRow((h.units, 0))
      modifies this`steps, evictData
      ensures State() == old(State()) && Consistent() && GridOk() && Targets(target)
      ensures evictMode == All ==> InPlace() && Occupied()
      ensures 0 < h.columns * h.units
      ensures evictMode == Superpage ==> Victims(h, Lines(), GridSlots(), Superpage, target)
      ensures (forall s :: s in GridSlots() ==> s in Lines())
              && InPolicy(h, Lines(), GridSlots(), evictMode, policy, target)
    {
      hide Inv, Victims, InPlace, Occupied, RowsOccupied, GridSlots, RowHas, Lines, BestAt, BestInRow, InPolicy;
      hide LastOnly;
      GridArea(h);
      var x, at := AddTarget(target);
      if evictMode == Superpage { OneMoreChosen(target, x, at); }
      CandidatesAreLines();
      PolicyHoldsBut(target, x, at);
    }

    /** A candidate that stands elsewhere than at `at` is the earliest of its kind. */
    lemma CandidateIsEarliest(s: Slot, r: nat, k: nat, at: (nat, nat))
      requires Shaped() && GridOk() && s in Lines() && 0 < h.columns * h.units
      requires evictMode == All ==> InPlace() && BestAt(at)
      requires evictMode == Superpage ==> BestInRow(at)
      requires r < h.units && k < h.columns && (r, k) != at && evictData[r, k] == Some(s)
      ensures Earliest(h, Lines(), evictMode, policy, s)
    {
      hide IoPosition;
      var lines := Lines();
      forall x | && x in lines && lines[x].valid
                 && (if evictMode == All then SamePosition(h, lines[s], lines[x]) else SameRow(h, lines[s], lines[x]))
        ensures Stamp(policy, lines[s]) <= Stamp(policy, lines[x])
      {
        assert Candidate(s, r);
        if evictMode == All {
          assert ValidAt(s, r, k) && ValidAt(x, r, k);
        } else {
          assert Candidate(x, r);
        }
        assert StampAt(s) <= StampAt(x);
      }
    }

    lemma PolicyHolds(target: nat)
      requires Shaped() && GridOk() && 0 < h.columns * h.units && forall s :: s in GridSlots() ==> s in Lines()
      requires evictMode == All ==> InPlace() && BestAt((h.units, 0))
      requires evictMode == Superpage ==> BestInRow((h.units, 0))
      ensures InPolicy(h, Lines(), GridSlots(), evictMode, policy, target)
    {
      hide Earliest, InPlace, BestAt, BestInRow, GridOk, Lines;
      forall s | s in GridSlots()
        ensures Earliest(h, Lines(), evictMode, policy, s)
      {
        var r, k := CandidateCell(s);
        CandidateIsEarliest(s, r, k, (h.units, 0));
      }
    }

    lemma PolicyHoldsBut(target: nat, x: Slot, at: (nat, nat))
      requires Shaped() && GridOk() && 0 < h.columns * h.units && forall s :: s in GridSlots() ==> s in Lines()
      requires evictMode == All ==> InPlace() && BestAt(at)
      requires evictMode == Superpage ==> BestInRow(at)
      requires at.0 < h.units && at.1 < h.columns && evictData[at.0, at.1] == Some(x) && x.set_ == target
      requires OnlyAt(target, at)
      requires h.Has(x) && forall w :: 0 <= w < h.ways ==> StampAt(x) <= StampAt(Slot(target, w))
      ensures InPolicy(h, Lines(), GridSlots(), evictMode, policy, target)
    {
      hide Earliest, InPlace, BestAt, BestInRow, GridOk, OnlyTarget;
      AddedIsOnlyTarget(target, x, at);
      AddedIsCandidate(x, at);
      forall s | s in GridSlots() && s != x
        ensures Earliest(h, Lines(), evictMode, policy, s)
      {
        var r, k := CandidateCell(s);
        CandidateIsEarliest(s, r, k, at);
      }
      AddedIsEarliest(target, x);
    }

    lemma AddedIsCandidate(x: Slot, at: (nat, nat))
      requires Shaped() && at.0 < h.units && at.1 < h.columns && evictData[at.0, at.1] == Some(x)
      ensures x in GridSlots()
    {
    }

    lemma AddedIsEarliest(target: nat, x: Slot)
      requires Shaped() && h.Has(x) && target < h.sets
      requires forall w :: 0 <= w < h.ways ==> StampAt(x) <= StampAt(Slot(target, w))
      ensures x in Lines() && EarliestOfSet(Lines(), policy, target, x)
    {
      var lines := Lines();
      forall y | y in lines && lines[y].valid && y.set_ == target
        ensures Stamp(policy, lines[x]) <= Stamp(policy, lines[y])
      {
        assert StampAt(x) <= StampAt(Slot(target, y.way)) && y == Slot(target, y.way);
      }
    }

    /** Every valid line has a candidate at its position. */
    ghost predicate Occupied()
      requires Shaped()
      reads cacheData, evictData
    {
      forall s :: h.Has(s) && cacheData[s.set_, s.way].valid ==>
        var p := IoPosition(h, cacheData[s.set_, s.way].tag); evictData[p.0, p.1].Some?
    }

    /** Every valid line has a candidate in its row. */
    ghost predicate RowsOccupied()
      requires Shaped()
      reads cacheData, evictData
    {
      forall s :: h.Has(s) && cacheData[s.set_, s.way].valid ==> RowHas(cacheData[s.set_, s.way].tag % h.units)
    }

    /** All candidates but the one at `at` are in the last column. */
    ghost predicate LastOnly(at: (nat, nat))
      requires Shaped()
      reads evictData
    {
      forall r, k :: 0 <= r < h.units && 0 <= k < h.columns - 1 && (r, k) != at ==> evictData[r, k] == None
    }

    lemma LinesOccupy()
      requires Shaped() && GridCovers(h.sets, 0) && GridOk() && BestSoFar(h.sets, 0)
      ensures Occupied() && RowsOccupied() && BestAt((h.units, 0)) && RowsBest()
    {
      assert forall x :: h.Has(x) ==> Seen(x, h.sets, 0);
      forall s | h.Has(s) && cacheData[s.set_, s.way].valid
        ensures var p := IoPosition(h, cacheData[s.set_, s.way].tag); evictData[p.0, p.1].Some?
        ensures RowHas(cacheData[s.set_, s.way].tag % h.units)
      {
        var p := IoPosition(h, cacheData[s.set_, s.way].tag);
        assert Seen(s, h.sets, 0) && ValidAt(s, p.0, p.1);
        assert Covers(p.0, p.1, h.sets, 0);
      }
      LinesAreLed();
    }

    lemma LinesAreLed()
      requires Shaped() && GridOk() && Occupied() && BestAt((h.units, 0))
      ensures RowsBest()
    {
      hide Grid, IoPosition, Lines, StampAt, GridOk;
      var lines, grid := Lines(), Grid();
      forall x | x in lines && lines[x].valid
        ensures exists k: nat :: Leads(policy, lines, grid, lines[x].tag % h.units, k, x)
      {
        var k := LineIsLed(x);
      }
    }

    lemma LineIsLed(x: Slot) returns (k: nat)
      requires Shaped() && GridOk() && Occupied() && BestAt((h.units, 0)) && x in Lines() && Lines()[x].valid
      ensures Leads(policy, Lines(), Grid(), Lines()[x].tag % h.units, k, x)
    {
      hide Grid, IoPosition;
      GridIs();
      var p := IoPosition(h, cacheData[x.set_, x.way].tag);
      k := p.1;
      assert ValidAt(x, p.0, p.1) && evictData[p.0, p.1].Some?;
      assert StampAt(evictData[p.0, p.1].value) <= StampAt(x);
      StampIs(x);
      StampIs(evictData[p.0, p.1].value);
    }

    lemma CandidatesAreLines()
      requires Shaped() && GridOk()
      ensures forall s :: s in GridSlots() ==> s in Lines() && Lines()[s].valid
      ensures forall r, k :: 0 <= r < h.units && 0 <= k < h.columns && evictData[r, k].Some? ==>
          evictData[r, k].value in GridSlots()
    {
    }

    lemma OnePerPositionChosen(target: nat)
      requires Shaped() && GridOk() && InPlace() && Occupied() && Targets(target)
      ensures 0 < h.columns * h.units && Victims(h, Lines(), GridSlots(), All, target)
    {
      hide Represented, OnePerPosition, InPlace, Occupied, GridOk, Targets, GridSlots, Lines;
      GridArea(h);
      CandidatesAreLines();
      TargetIsCandidate(target);
      PositionsAreRepresented();
      PositionsAreOne();
    }

    lemma PositionsAreRepresented()
      requires Shaped() && GridOk() && InPlace() && Occupied()
      ensures 0 < h.columns * h.units && Represented(h, Lines(), GridSlots(), All)
    {
      hide IoPosition;
      GridArea(h);
      var lines, done := Lines(), GridSlots();
      CandidatesAreLines();
      forall x | x in lines && lines[x].valid
        ensures exists s :: s in done && s in lines && SamePosition(h, lines[s], lines[x])
      {
        var p := IoPosition(h, lines[x].tag);
        var s := evictData[p.0, p.1].value;
        assert ValidAt(s, p.0, p.1);
        assert SamePosition(h, lines[s], lines[x]);
      }
    }

    lemma PositionsAreOne()
      requires Shaped() && GridOk() && InPlace()
      ensures 0 < h.columns * h.units && OnePerPosition(h, Lines(), GridSlots())
    {
      GridArea(h);
      hide IoPosition;
      var lines, done := Lines(), GridSlots();
      forall a, b | a in done && b in done && a in lines && b in lines && SamePosition(h, lines[a], lines[b])
        ensures a == b
      {
        var r, k := CandidateCell(a);
        var i, j := CandidateCell(b);
        assert ValidAt(a, r, k) && ValidAt(b, i, j);
      }
    }

    lemma TargetIsCandidate(target: nat)
      requires Shaped() && Targets(target)
      ensures exists s :: s in GridSlots() && s.set_ == target
    {
      var r, k :| 0 <= r < h.units && 0 <= k < h.columns && In(evictData[r, k], target);
      assert evictData[r, k].value in GridSlots();
    }

    lemma RowsAreRepresented()
      requires Shaped() && GridOk() && RowsOccupied()
      ensures 0 < h.columns * h.units && Represented(h, Lines(), GridSlots(), Superpage)
    {
      GridArea(h);
      CandidatesAreLines();
      var lines, done := Lines(), GridSlots();
      forall x | x in lines && lines[x].valid
        ensures exists s :: s in done && s in lines && SameRow(h, lines[s], lines[x])
      {
        var r := lines[x].tag % h.units;
        assert RowHas(r);
        var k :| 0 <= k < h.columns && evictData[r, k].Some?;
        var s := evictData[r, k].value;
        assert Candidate(s, r);
        assert SameRow(h, lines[s], lines[x]);
      }
    }

    lemma CandidateCell(s: Slot) returns (r: nat, k: nat)
      requires Shaped() && s in GridSlots()
      ensures r < h.units && k < h.columns && evictData[r, k] == Some(s)
    {
      r, k :| 0 <= r < h.units && 0 <= k < h.columns && evictData[r, k] == Some(s);
    }

    /** Two candidates of one row outside `at` are the same. */
    lemma RowIsOne(at: (nat, nat), a: Slot, b: Slot)
      requires Shaped() && GridOk() && LastOnly(at) && a in GridSlots() && b in GridSlots()
      requires at.0 < h.units && at.1 < h.columns ==>
          evictData[at.0, at.1] != Some(a) && evictData[at.0, at.1] != Some(b)
      requires h.Has(a) && h.Has(b) && SameRow(h, cacheData[a.set_, a.way], cacheData[b.set_, b.way])
      ensures a == b
    {
      var r, k := CandidateCell(a);
      var i, j := CandidateCell(b);
      assert Candidate(a, r) && Candidate(b, i);
    }

    lemma RowsAreOne(at: (nat, nat), done: set<Slot>)
      requires Shaped() && GridOk() && LastOnly(at) && done <= GridSlots()
      requires at.0 < h.units && at.1 < h.columns && evictData[at.0, at.1].Some? ==>
          evictData[at.0, at.1].value !in done
      ensures OnePerRow(h, Lines(), done)
    {
      var lines := Lines();
      forall a, b | a in done && b in done && a in lines && b in lines && SameRow(h, lines[a], lines[b])
        ensures a == b
      {
        RowIsOne(at, a, b);
      }
    }

    lemma OnePerRowChosen(target: nat)
      requires Shaped() && GridOk() && RowsOccupied() && Targets(target) && LastOnly((h.units, 0))
      ensures 0 < h.columns * h.units && Victims(h, Lines(), GridSlots(), Superpage, target)
    {
      hide Represented, OnePerRow, RowsOccupied, GridOk, Targets, LastOnly, GridSlots, Lines;
      RowsAreRepresented();
      CandidatesAreLines();
      TargetIsCandidate(target);
      RowsAreOne((h.units, 0), GridSlots());
    }

    lemma OneMoreChosen(target: nat, x: Slot, at: (nat, nat))
      requires Shaped() && GridOk() && RowsOccupied() && LastOnly(at) && at.0 < h.units && at.1 < h.columns
      requires evictData[at.0, at.1] == Some(x) && x.set_ == target
      requires OnlyAt(target, at)
      ensures 0 < h.columns * h.units && Victims(h, Lines(), GridSlots(), Superpage, target)
    {
      hide Represented, OnePerRow, OnlyTarget, RowsOccupied, GridOk, Targets, LastOnly, GridSlots, Lines;
      RowsAreRepresented();
      CandidatesAreLines();
      AddedIsOnlyTarget(target, x, at);
      RowsAreOne(at, GridSlots() - {x});
      AddedIsTarget(GridSlots(), target, x);
    }

    lemma AddedIsOnlyTarget(target: nat, x: Slot, at: (nat, nat))
      requires Shaped() && at.0 < h.units && at.1 < h.columns
      requires evictData[at.0, at.1] == Some(x) && x.set_ == target
      requires OnlyAt(target, at)
      ensures OnlyTarget(GridSlots(), target, x)
    {
      var done := GridSlots();
      assert x in done;
      forall s | s in done && s.set_ == target
        ensures s == x
      {
        var r, k := CandidateCell(s);
        assert In(evictData[r, k], target);
      }
    }

    lemma AddedIsTarget(done: set<Slot>, target: nat, x: Slot)
      requires OnlyTarget(done, target, x)
      ensures exists s :: s in done && s.set_ == target
    {
    }

    // ----- write -----------------------------------------------------------------------------------------

    /** Give up victims and take an empty line of the target set. */
    method MakeRoom(target: nat) returns (way: nat, ghost done: set<Slot>)
      requires Valid() && target < h.sets && SetFull(target)
      modifies this, cacheData, evictData
      ensures Valid() && Drained(h, old(State()), State(), done)
      ensures way < h.ways && !cacheData[target, way].valid
      ensures 0 < h.columns * h.units && Victims(h, old(Lines()), done, evictMode, target)
      ensures (forall s :: s in done ==> s in old(Lines()))
              && InPolicy(h, old(Lines()), done, evictMode, policy, target)
    {
      hide Inv, Drained, Victims, InPolicy;
      ChooseVictims(target);
      ghost var slots := GridSlots();
      ghost var r, k :| 0 <= r < h.units && 0 <= k < h.columns && In(evictData[r, k], target);
      ghost var s := evictData[r, k].value;
      assert s in Lines();
      ghost var c1 := State();
      var at := Later();
      done := EvictCache(at);
      assert done == slots;
      DrainedLine(h, c1, State(), done, s);
      assert State().lines[s] == cacheData[s.set_, s.way];
      way := GetEmptyWay(target);
    }

    ghost predicate SetFull(i: nat)
      requires Shaped() && i < h.sets
      reads cacheData
    {
      forall w :: 0 <= w < h.ways ==> cacheData[i, w].valid
    }

    /** The line for tag t: the one that holds it, else an empty one of its set; waySize if there is neither. */
    method FindLine(t: nat) returns (way: nat)
      requires Shaped() && Placed(h, Lines())
      ensures way <= h.ways
      ensures way == h.ways <==> !Cached(State(), t) && SetFull(SetIndex(h, t))
      ensures way < h.ways ==>
                var l := cacheData[SetIndex(h, t), way]; if l.valid then l.tag == t else !Cached(State(), t)
    {
      way := GetValidWay(t);
      if way == h.ways { way := GetEmptyWay(SetIndex(h, t)); }
    }

    /** The value goes to the line that holds the tag, or to an empty one. */
    method StoreInLine(t: nat, v: int, dirty: bool, way: nat, ghost c0: Cache)
      requires Shaped() && GridEmpty() && Inv(h, c0) && State() == Forwarded(h, c0, t, v, dirty) && way < h.ways
      requires var l := cacheData[SetIndex(h, t), way]; if l.valid then l.tag == t else !Cached(c0, t)
      modifies this, cacheData
      ensures Valid() && Written(h, c0, State(), t, v) && InSet(h, State(), t)
      ensures (DirtyLine(State(), t) <==> dirty) && (!dirty ==> SentFirst(h, c0, State(), t, v))
      ensures OneLineChanged(c0, State())
    {
      hide Inv, Written, Cached, Placed, SetIndex, DirtyLine, InSet, SentFirst;
      InvKeys(h, c0);
      var s := Slot(SetIndex(h, t), way);
      assert c0.lines[s] == cacheData[s.set_, way];
      ForwardedLogs(h, c0, t, v, dirty);
      var at := Later();
      StoreWrites(h, c0, s, t, v, at, dirty);
      PutLine(s, Line(t, at, at, dirty, true, v));
      assert State().lines == c0.lines[s := State().lines[s]];
      HoldsCached(h, State(), s, t);
      InItsSet(h, State(), s, t);
    }

    /** The value goes to a line of its set that an eviction makes free, and is dirty there. */
    method StoreByEviction(t: nat, v: int, dirty: bool, ghost c0: Cache) returns (r: Outcome<bool, CacheFault>)
      requires Shaped() && GridEmpty() && Inv(h, c0) && State() == Forwarded(h, c0, t, v, dirty)
      requires SetFull(SetIndex(h, t)) && !Cached(c0, t)
      modifies this, cacheData, evictData
      ensures r == Ok(false) && Valid() && Written(h, c0, State(), t, v) && InSet(h, State(), t)
      ensures DirtyLine(State(), t) && (!dirty ==> SentFirst(h, c0, State(), t, v))
      ensures 0 < h.columns * h.units && Evicted(h, c0, State(), evictMode, policy, t)
    {
      hide Inv, Written, Drained, Cached, SetIndex, DirtyLine, Victims, Evicted, InPolicy, InSet, SentFirst;
      InvKeys(h, c0);
      ForwardedKeeps(h, c0, t, v, dirty);
      ghost var c1 := State();
      var i := SetIndex(h, t);
      ghost var done;
      var way;
      way, done := MakeRoom(i);
      if way == h.ways { return Panic(CacheCorrupted); }
      var at := Later();
      var s := Slot(i, way);
      assert State().lines[s] == cacheData[i, way];
      ghost var c2 := State();
      EvictionWrites(h, c0, c1, c2, done, s, t, v, at, dirty);
      assert c0.lines[s].valid;
      EvictedBy(h, c0, c1, c2, done, evictMode, policy, s, Line(t, at, at, true, true, v));
      DrainedLogs(h, c0, c1, c2, done, t, v, dirty);
      PutLine(s, Line(t, at, at, true, true, v));
      SameLog(h, c0, c2, State(), t, v);
      HoldsCached(h, State(), s, t);
      InItsSet(h, State(), s, t);
      r := Ok(false);
    }

    /** write(): true when the tag was cached or an empty line was found. */
    method Write(t: nat, length: nat, v: int) returns (r: Outcome<bool, CacheFault>)
      requires Shaped() && GridEmpty() && (useWriteCaching ==> Consistent())
      modifies this, cacheData, evictData
      ensures Shaped() && GridEmpty() && r.Ok?
      ensures useWriteCaching || (old(Consistent()) && !Cached(old(State()), t)) ==>
                Valid() && Written(h, old(State()), State(), t, v)
      ensures useWriteCaching ==> InSet(h, State(), t)
      ensures !useWriteCaching ==> State() == SendTag(h, old(State()), t, v)
      ensures useWriteCaching ==> (DirtyLine(State(), t) <==> length < lineSize || !r.value)
      ensures r.value == (useWriteCaching && (Cached(old(State()), t) || !old(SetFull(SetIndex(h, t)))))
      ensures length >= lineSize || !useWriteCaching ==> SentFirst(h, old(State()), State(), t, v)
      ensures useWriteCaching && !r.value ==>
                0 < h.columns * h.units && Evicted(h, old(State()), State(), evictMode, policy, t)
      ensures r.value ==> OneLineChanged(old(State()), State())
    {
      hide Inv, Written, Cached, Placed, SetIndex, SendTag, DirtyLine, Evicted, InSet, SentFirst, OneLineChanged;
      ghost var c0 := State();
      if Inv(h, c0) { InvKeys(h, c0); }
      var dirty := length < lineSize;
      if !dirty { FtlWriteTag(t, v); }
      if !useWriteCaching {
        if dirty { FtlWriteTag(t, v); }
        ForwardedLogs(h, c0, t, v, false);
        if Inv(h, c0) && !Cached(c0, t) { AroundWrites(h, c0, t, v); }
        return Ok(false);
      }
      SameLines(c0, State(), t);
      var way := FindLine(t);
      if way != h.ways {
        StoreInLine(t, v, dirty, way, c0);
        r := Ok(true);
      } else {
        r := StoreByEviction(t, v, dirty, c0);
      }
    }
  }

  /** A value that fills its line is sent below first. */
  function Forwarded(h: Shape, c: Cache, t: nat, v: int, dirty: bool): Cache
    requires h.Valid()
  {
    if dirty then c else SendTag(h, c, t, v)
  }

  /** The first thing sent below is the value for t. */
  ghost predicate SentFirst(h: Shape, c: Cache, c': Cache, t: nat, v: int)
    requires h.Valid()
  {
    |c.sent| < |c'.sent| && c'.sent[|c.sent|] == Sent(t / h.units, t % h.units, v)
  }

  /** A line of its set holds t. */
  ghost predicate InSet(h: Shape, c: Cache, t: nat)
    requires h.Valid()
  {
    exists w :: 0 <= w < h.ways && Holds(c, Slot(t % h.sets, w), t)
  }

  ghost predicate OneLineChanged(c: Cache, c': Cache) {
    exists s :: s in c'.lines && c'.lines == c.lines[s := c'.lines[s]]
  }

  lemma ForwardedLogs(h: Shape, c: Cache, t: nat, v: int, dirty: bool)
    requires h.Valid()
    ensures !dirty ==> forall c': Cache :: c'.sent == Forwarded(h, c, t, v, dirty).sent ==> SentFirst(h, c, c', t, v)
  {
  }

  lemma ForwardedKeeps(h: Shape, c: Cache, t: nat, v: int, dirty: bool)
    requires Inv(h, c) && !Cached(c, t)
    ensures Inv(h, Forwarded(h, c, t, v, dirty))
  {
    hide Inv, View;
    if !dirty { SendUncached(h, c, t, v); }
  }

  lemma DrainedLogs(h: Shape, c: Cache, c1: Cache, c2: Cache, done: set<Slot>, t: nat, v: int, dirty: bool)
    requires h.Valid() && c1 == Forwarded(h, c, t, v, dirty) && Drained(h, c1, c2, done)
    ensures !dirty ==> SentFirst(h, c, c2, t, v)
  {
    hide View;
    if !dirty { assert c2.sent[|c.sent|] == c2.sent[..|c1.sent|][|c.sent|]; }
  }

  lemma SameLog(h: Shape, c: Cache, c2: Cache, c3: Cache, t: nat, v: int)
    requires h.Valid() && c3.sent == c2.sent
    ensures SentFirst(h, c, c2, t, v) ==> SentFirst(h, c, c3, t, v)
  {
  }

  lemma SameLines(c: Cache, c': Cache, t: nat)
    requires c.lines == c'.lines
    ensures Cached(c, t) == Cached(c', t)
  {
    assert forall s :: Holds(c, s, t) == Holds(c', s, t);
  }

  lemma InItsSet(h: Shape, c: Cache, s: Slot, t: nat)
    requires h.Valid() && h.Has(s) && Holds(c, s, t) && s.set_ == SetIndex(h, t)
    ensures InSet(h, c, t)
  {
    assert Holds(c, Slot(t % h.sets, s.way), t);
  }

  lemma HoldsCached(h: Shape, c: Cache, s: Slot, t: nat)
    requires Inv(h, c) && Holds(c, s, t)
    ensures Cached(c, t) && (DirtyLine(c, t) <==> c.lines[s].dirty)
  {
  }
}
