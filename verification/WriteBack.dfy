/** What the lines of icl/generic_cache.cc hold, and single steps on them. The contents of a line and of the
    flash below it belong to the model only; the simulator keeps no data. */
module WriteBack {
  import opened Outcomes
  import opened Arithmetic

  const MaxTick: nat := 0xFFFF_FFFF_FFFF_FFFF

  /** Times; getEmptyWay cannot see an empty line stamped with the largest 64-bit number. */
  type Tick = t: nat | t < MaxTick

  datatype Line = Line(tag: nat, lastAccessed: Tick, insertedAt: Tick, dirty: bool, valid: bool, data: int)

  const EmptyLine: Line := Line(0, 0, 0, false, false, 0)

  datatype Slot = Slot(set_: nat, way: nat)

  /** setSize, waySize, lineCountInSuperPage, parallelIO */
  datatype Shape = Shape(sets: nat, ways: nat, units: nat, columns: nat) {
    predicate Valid() {
      0 < sets && 0 < ways && 0 < units && 0 < columns
    }

    predicate Has(s: Slot) {
      s.set_ < sets && s.way < ways
    }
  }

  /** A write request to the flash translation layer for one unit of a logical page. */
  datatype Sent = Sent(lpn: nat, unit: nat, data: int)

  datatype Cache = Cache(lines: map<Slot, Line>, store: map<(nat, nat), int>, sent: seq<Sent>)

  /** What is stored below after these requests. */
  function Stored(store: map<(nat, nat), int>, sent: seq<Sent>): map<(nat, nat), int> {
    if sent == [] then store
    else
      var x := sent[|sent| - 1];
      Stored(store, sent[..|sent| - 1])[(x.lpn, x.unit) := x.data]
  }

  /** calcSetIndex */
  function SetIndex(h: Shape, t: nat): (i: nat)
    requires h.Valid()
    ensures i < h.sets
  {
    t % h.sets
  }

  /** calcIOPosition: the row is the unit of the logical page, the column the I/O channel it falls on. */
  function IoPosition(h: Shape, t: nat): (p: (nat, nat))
    requires h.Valid()
    ensures 0 < h.columns * h.units && p == (t % h.units, t % (h.columns * h.units) / h.units)
    ensures p.0 < h.units && p.1 < h.columns
  {
    Positive(h.columns, h.units);
    Nested(t, h.units, h.columns);
    var tmp := t % (h.columns * h.units);
    QuotientBelow(tmp, h.units, h.columns);
    (tmp % h.units, tmp / h.units)
  }

  /** Where the flash translation layer keeps a tag. */
  function Key(h: Shape, t: nat): (nat, nat)
    requires h.Valid()
  {
    (t / h.units, t % h.units)
  }

  lemma KeysDiffer(h: Shape, t: nat, t': nat)
    requires h.Valid() && Key(h, t) == Key(h, t')
    ensures t == t'
  {
    DivMod(t, h.units);
    DivMod(t', h.units);
  }

  // ----- contents ------------------------------------------------------------------------------------------

  /** Valid tags are unique and in their own set, and a clean line equals what is below it. */
  ghost predicate Inv(h: Shape, c: Cache) {
    && Placed(h, c.lines)
    && Uniq(c.lines)
    && (forall s :: s in c.lines && c.lines[s].valid && !c.lines[s].dirty ==> Backed(h, c.store, c.lines[s]))
  }

  ghost predicate Placed(h: Shape, lines: map<Slot, Line>) {
    && h.Valid()
    && (forall s :: s in lines <==> h.Has(s))
    && forall s :: s in lines && lines[s].valid ==> SetIndex(h, lines[s].tag) == s.set_
  }

  ghost predicate Uniq(lines: map<Slot, Line>) {
    forall s, s' ::
      s in lines && s' in lines && lines[s].valid && lines[s'].valid && lines[s].tag == lines[s'].tag ==> s == s'
  }

  predicate Backed(h: Shape, store: map<(nat, nat), int>, l: Line)
    requires h.Valid()
  {
    Key(h, l.tag) in store && store[Key(h, l.tag)] == l.data
  }

  ghost predicate Holds(c: Cache, s: Slot, t: nat) {
    s in c.lines && c.lines[s].valid && c.lines[s].tag == t
  }

  ghost predicate Cached(c: Cache, t: nat) {
    exists s :: Holds(c, s, t)
  }

  /** What a reader of tag t gets: the cached line, or what the flash translation layer has. */
  ghost function View(h: Shape, c: Cache, t: nat): Option<int>
    requires h.Valid()
  {
    if s :| Holds(c, s, t) then Some(c.lines[s].data)
    else if Key(h, t) in c.store then Some(c.store[Key(h, t)]) else None
  }

  lemma ViewIs(h: Shape, c: Cache, s: Slot, t: nat)
    requires Inv(h, c) && Holds(c, s, t)
    ensures View(h, c, t) == Some(c.lines[s].data)
  {
  }

  lemma ViewBelow(h: Shape, c: Cache, t: nat)
    requires h.Valid() && !Cached(c, t)
    ensures View(h, c, t) == if Key(h, t) in c.store then Some(c.store[Key(h, t)]) else None
  {
    assert forall s :: !Holds(c, s, t);
  }

  /** The valid dirty lines. */
  ghost predicate DirtyLine(c: Cache, t: nat) {
    exists s :: Holds(c, s, t) && c.lines[s].dirty
  }

  // ----- steps --------------------------------------------------------------------------------------------------

  /** pFTL->write of one unit. */
  function Send(c: Cache, lpn: nat, unit: nat, data: int): Cache {
    c.(store := c.store[(lpn, unit) := data], sent := c.sent + [Sent(lpn, unit, data)])
  }

  /** pFTL->write of the unit that a tag names. */
  function SendTag(h: Shape, c: Cache, t: nat, v: int): (r: Cache)
    requires h.Valid()
    ensures r.lines == c.lines
  {
    Send(c, t / h.units, t % h.units, v)
  }

  function SetLine(c: Cache, s: Slot, l: Line): Cache {
    c.(lines := c.lines[s := l])
  }

  /** evictCache for the line at s found in grid row `row`. */
  function Flush(h: Shape, c: Cache, s: Slot, row: nat, at: Tick): Cache
    requires h.Valid() && s in c.lines
  {
    var l := c.lines[s];
    SetLine(if l.valid && l.dirty then Send(c, l.tag / h.units, row, l.data) else c, s,
            l.(valid := false, tag := 0, insertedAt := at, lastAccessed := at, dirty := false))
  }

  function SentFor(h: Shape, l: Line): Sent
    requires h.Valid()
  {
    Sent(l.tag / h.units, l.tag % h.units, l.data)
  }

  /** Flushing a line in the row of its unit hides nothing from a reader. */
  lemma FlushKeeps(h: Shape, c: Cache, s: Slot, row: nat, at: Tick)
    requires Inv(h, c) && s in c.lines && (c.lines[s].valid ==> row == c.lines[s].tag % h.units)
    ensures Inv(h, Flush(h, c, s, row, at))
    ensures forall t :: View(h, Flush(h, c, s, row, at), t) == View(h, c, t)
  {
    var c' := Flush(h, c, s, row, at);
    var l := c.lines[s];
    forall s2 | s2 in c'.lines && c'.lines[s2].valid && !c'.lines[s2].dirty
      ensures Backed(h, c'.store, c'.lines[s2])
    {
      if l.valid && Key(h, l.tag) == Key(h, c.lines[s2].tag) { KeysDiffer(h, l.tag, c.lines[s2].tag); }
    }
    forall t
      ensures View(h, c', t) == View(h, c, t)
    {
      FlushView(h, c, s, row, at, t);
    }
  }

  lemma FlushView(h: Shape, c: Cache, s: Slot, row: nat, at: Tick, t: nat)
    requires Inv(h, c) && s in c.lines && (c.lines[s].valid ==> row == c.lines[s].tag % h.units)
    ensures View(h, Flush(h, c, s, row, at), t) == View(h, c, t)
  {
    var c' := Flush(h, c, s, row, at);
    var l := c.lines[s];
    if Holds(c, s, t) {
      assert !Cached(c', t);
      ViewIs(h, c, s, t);
      ViewBelow(h, c', t);
    } else if Cached(c, t) {
      var s2 :| Holds(c, s2, t);
      ViewIs(h, c, s2, t);
      assert Holds(c', s2, t);
      assert forall s3 :: Holds(c', s3, t) ==> s3 == s2;
    } else {
      assert forall x :: Holds(c', x, t) ==> Holds(c, x, t);
      ViewBelow(h, c, t);
      ViewBelow(h, c', t);
      if l.valid && Key(h, l.tag) == Key(h, t) { KeysDiffer(h, l.tag, t); }
    }
  }

  /** Storing a value for t in a line: the reader sees it there, and everything else as before. `direct` says
      whether the value was also sent to the flash translation layer. */
  function Store(h: Shape, c: Cache, s: Slot, t: nat, v: int, at: Tick, dirty: bool, direct: bool): Cache
    requires h.Valid()
  {
    SetLine(if direct then SendTag(h, c, t, v) else c, s, Line(t, at, at, dirty, true, v))
  }

  lemma StoreSets(h: Shape, c: Cache, s: Slot, t: nat, v: int, at: Tick, dirty: bool, direct: bool)
    requires Inv(h, c) && h.Has(s) && s.set_ == SetIndex(h, t) && (dirty || direct)
    requires if c.lines[s].valid then c.lines[s].tag == t else !Cached(c, t)
    ensures var c' := Store(h, c, s, t, v, at, dirty, direct);
            Inv(h, c') && Holds(c', s, t) && forall u :: View(h, c', u) == if u == t then Some(v) else View(h, c, u)
  {
    var c' := Store(h, c, s, t, v, at, dirty, direct);
    forall s2 | s2 in c'.lines && c'.lines[s2].valid && !c'.lines[s2].dirty
      ensures Backed(h, c'.store, c'.lines[s2])
    {
      if s2 != s && Key(h, t) == Key(h, c.lines[s2].tag) {
        KeysDiffer(h, t, c.lines[s2].tag);
        assert Holds(c, s2, t);
      }
    }
    assert forall y :: Holds(c, y, t) ==> y == s by {
      if c.lines[s].valid { assert Holds(c, s, t); }
    }
    assert forall x :: x != s && Holds(c', x, t) ==> Holds(c, x, t);
    assert forall y :: y in c'.lines && c'.lines[y].valid && c'.lines[y].tag == t ==> Holds(c', y, t);
    assert Inv(h, c');
    ViewIs(h, c', s, t);
    forall u | u != t
      ensures View(h, c', u) == View(h, c, u)
    {
      StoreView(h, c, s, t, v, at, dirty, direct, u);
    }
  }

  lemma StoreView(h: Shape, c: Cache, s: Slot, t: nat, v: int, at: Tick, dirty: bool, direct: bool, u: nat)
    requires Inv(h, c) && h.Has(s) && u != t && (c.lines[s].valid ==> c.lines[s].tag == t)
    requires Inv(h, Store(h, c, s, t, v, at, dirty, direct))
    ensures View(h, Store(h, c, s, t, v, at, dirty, direct), u) == View(h, c, u)
  {
    var c' := Store(h, c, s, t, v, at, dirty, direct);
    if Cached(c, u) {
      var x :| Holds(c, x, u);
      ViewIs(h, c, x, u);
      ViewIs(h, c', x, u);
    } else {
      assert forall x :: Holds(c', x, u) ==> Holds(c, x, u);
      ViewBelow(h, c, u);
      ViewBelow(h, c', u);
      if Key(h, u) == Key(h, t) { KeysDiffer(h, u, t); }
    }
  }

  // ----- a whole eviction -------------------------------------------------------------------------------------

  /** The lines at `done` were flushed: they are empty, those that were dirty were sent, nothing else was, and
      a reader sees no difference. */
  ghost predicate Drained(h: Shape, c: Cache, c': Cache, done: set<Slot>)
    requires h.Valid()
  {
    && c'.lines.Keys == c.lines.Keys
    && (forall s :: s in c.lines && s !in done ==> c'.lines[s] == c.lines[s])
    && (forall s :: s in c.lines && s in done ==> !c'.lines[s].valid && !c'.lines[s].dirty)
    && Logged(h, c, c', done)
    && (forall t :: View(h, c', t) == View(h, c, t))
  }

  /** A request below that is due to the dirty line at s. */
  predicate Accounts(h: Shape, c: Cache, s: Slot, x: Sent)
    requires h.Valid()
  {
    s in c.lines && c.lines[s].valid && c.lines[s].dirty && x == SentFor(h, c.lines[s])
  }

  ghost predicate Logged(h: Shape, c: Cache, c': Cache, done: set<Slot>)
    requires h.Valid()
  {
    && |c.sent| <= |c'.sent| && c'.sent[..|c.sent|] == c.sent
    && (forall s :: s in c.lines && s in done && c.lines[s].valid && c.lines[s].dirty ==>
          SentFor(h, c.lines[s]) in c'.sent[|c.sent|..])
    && (forall k :: |c.sent| <= k < |c'.sent| ==>
          exists s :: s in done && Accounts(h, c, s, c'.sent[k]))
  }

  lemma FlushSends(h: Shape, c: Cache, s: Slot, row: nat, at: Tick)
    requires h.Valid() && s in c.lines && (c.lines[s].valid ==> row == c.lines[s].tag % h.units)
    ensures var l := c.lines[s];
            Flush(h, c, s, row, at).sent == if l.valid && l.dirty then c.sent + [SentFor(h, l)] else c.sent
  {
  }

  lemma DrainLogs(h: Shape, c: Cache, c1: Cache, done: set<Slot>, s: Slot, row: nat, at: Tick)
    requires h.Valid() && c1.lines.Keys == c.lines.Keys && Logged(h, c, c1, done) && s in c.lines
    requires c1.lines[s] == c.lines[s] || (s in done && !c1.lines[s].valid)
    requires c1.lines[s].valid ==> row == c1.lines[s].tag % h.units
    ensures Logged(h, c, Flush(h, c1, s, row, at), done + {s})
  {
    hide SentFor, Flush;
    var c2 := Flush(h, c1, s, row, at);
    FlushSends(h, c1, s, row, at);
    var n := |c.sent|;
    assert c2.sent[..n] == c1.sent[..n];
    if c1.lines[s].valid && c1.lines[s].dirty {
      assert c2.sent[n..] == c1.sent[n..] + [SentFor(h, c.lines[s])];
      forall k | n <= k < |c2.sent|
        ensures exists x :: x in done + {s} && Accounts(h, c, x, c2.sent[k])
      {
        if k < |c1.sent| {
          assert c2.sent[k] == c1.sent[k];
          var x := LoggedSource(h, c, c1, done, k);
          assert x in done + {s};
        }
      }
    }
  }

  lemma DrainOne(h: Shape, c: Cache, c1: Cache, done: set<Slot>, s: Slot, row: nat, at: Tick)
    requires Inv(h, c1) && Drained(h, c, c1, done) && s in c1.lines
    requires c1.lines[s].valid ==> row == c1.lines[s].tag % h.units
    ensures Inv(h, Flush(h, c1, s, row, at)) && Drained(h, c, Flush(h, c1, s, row, at), done + {s})
  {
    hide View, Logged, Inv;
    InvKeys(h, c1);
    assert c1.lines[s] == c.lines[s] || (s in done && !c1.lines[s].valid);
    FlushKeeps(h, c1, s, row, at);
    DrainLogs(h, c, c1, done, s, row, at);
  }

  lemma DrainedLine(h: Shape, c: Cache, c': Cache, done: set<Slot>, s: Slot)
    requires h.Valid() && Drained(h, c, c', done) && s in c.lines
    ensures s in c'.lines && (c'.lines[s] == c.lines[s] || !c'.lines[s].valid)
    ensures s in done ==> !c'.lines[s].valid
  {
  }

  lemma NothingDrained(h: Shape, c: Cache)
    requires h.Valid()
    ensures Drained(h, c, c, {})
  {
    assert c.sent[|c.sent|..] == [];
  }

  // ----- a whole write --------------------------------------------------------------------------------------

  /** Sending a value for a tag that no line holds. */
  lemma SendUncached(h: Shape, c: Cache, t: nat, v: int)
    requires Inv(h, c) && !Cached(c, t)
    ensures var c' := SendTag(h, c, t, v);
            Inv(h, c') && forall u :: View(h, c', u) == if u == t then Some(v) else View(h, c, u)
  {
    var c' := SendTag(h, c, t, v);
    forall s | s in c.lines && c.lines[s].valid && !c.lines[s].dirty
      ensures Backed(h, c'.store, c.lines[s])
    {
      assert Holds(c, s, c.lines[s].tag);
      if Key(h, t) == Key(h, c.lines[s].tag) { KeysDiffer(h, t, c.lines[s].tag); }
    }
    assert forall s, u :: Holds(c', s, u) <==> Holds(c, s, u);
    forall u
      ensures View(h, c', u) == if u == t then Some(v) else View(h, c, u)
    {
      if Cached(c, u) {
        var s :| Holds(c, s, u);
        ViewIs(h, c, s, u);
        ViewIs(h, c', s, u);
      } else {
        ViewBelow(h, c, u);
        ViewBelow(h, c', u);
        if Key(h, u) == Key(h, t) { KeysDiffer(h, u, t); }
      }
    }
  }

  /** What the caller of write() may rely on: the reader of t sees the new value and every other reader what it
      saw before, no dirty line disappears without having been sent, and nothing is sent but t and dirty lines. */
  ghost predicate Written(h: Shape, c: Cache, c': Cache, t: nat, v: int)
    requires h.Valid()
  {
    && (forall u :: View(h, c', u) == if u == t then Some(v) else View(h, c, u))
    && KeepsDirty(h, c, c')
    && SendsDirty(h, c, c', t, v)
  }

  ghost predicate SentSince(h: Shape, c: Cache, c': Cache, u: nat)
    requires h.Valid()
  {
    exists k :: |c.sent| <= k < |c'.sent| && (c'.sent[k].lpn, c'.sent[k].unit) == Key(h, u)
  }

  ghost predicate KeepsDirty(h: Shape, c: Cache, c': Cache)
    requires h.Valid()
  {
    && |c.sent| <= |c'.sent| && c'.sent[..|c.sent|] == c.sent
    && forall u :: DirtyLine(c, u) ==> DirtyLine(c', u) || SentSince(h, c, c', u)
  }

  ghost predicate SendsDirty(h: Shape, c: Cache, c': Cache, t: nat, v: int)
    requires h.Valid()
  {
    forall k :: |c.sent| <= k < |c'.sent| ==>
      || c'.sent[k] == Sent(t / h.units, t % h.units, v)
      || exists s :: Accounts(h, c, s, c'.sent[k])
  }

  /** A write around the cache, for a tag that is not cached. */
  lemma AroundWrites(h: Shape, c: Cache, t: nat, v: int)
    requires Inv(h, c) && !Cached(c, t)
    ensures Inv(h, SendTag(h, c, t, v)) && Written(h, c, SendTag(h, c, t, v), t, v)
  {
    hide View, Inv;
    InvKeys(h, c);
    var c' := SendTag(h, c, t, v);
    SendUncached(h, c, t, v);
    assert c'.sent[|c.sent|] == Sent(t / h.units, t % h.units, v);
    forall u | DirtyLine(c, u)
      ensures DirtyLine(c', u)
    {
      var x :| Holds(c, x, u) && c.lines[x].dirty;
      assert Holds(c', x, u) && c'.lines[x].dirty;
    }
  }

  /** A write around the cache is seen by a reader exactly if no line holds another value for its tag: with
      write caching off, write() leaves a line filled by an earlier read as it is. */
  lemma AroundIsSeenUnlessCached(h: Shape, c: Cache, t: nat, v: int)
    requires Inv(h, c)
    ensures View(h, SendTag(h, c, t, v), t) == Some(v) <==>
            !Cached(c, t) || View(h, c, t) == Some(v)
  {
    var c' := SendTag(h, c, t, v);
    if Cached(c, t) {
      var s :| Holds(c, s, t);
      ViewIs(h, c, s, t);
      assert forall x :: Holds(c', x, t) <==> Holds(c, x, t);
    } else {
      SendUncached(h, c, t, v);
    }
  }

  /** A write that finds the tag, or an empty line in its set. */
  lemma StoreWrites(h: Shape, c: Cache, s: Slot, t: nat, v: int, at: Tick, dirty: bool)
    requires Inv(h, c) && h.Has(s) && s.set_ == SetIndex(h, t)
    requires if c.lines[s].valid then c.lines[s].tag == t else !Cached(c, t)
    ensures var c' := Store(h, c, s, t, v, at, dirty, !dirty);
            Inv(h, c') && Holds(c', s, t) && Written(h, c, c', t, v)
  {
    hide View, Inv;
    InvKeys(h, c);
    var c' := Store(h, c, s, t, v, at, dirty, !dirty);
    StoreSets(h, c, s, t, v, at, dirty, !dirty);
    assert SendsDirty(h, c, c', t, v);
    forall u | DirtyLine(c, u)
      ensures DirtyLine(c', u) || SentSince(h, c, c', u)
    {
      var x :| Holds(c, x, u) && c.lines[x].dirty;
      if x == s {
        if dirty {
          assert Holds(c', s, u) && c'.lines[s].dirty;
        } else {
          assert (c'.sent[|c.sent|].lpn, c'.sent[|c.sent|].unit) == Key(h, u);
        }
      } else {
        assert Holds(c', x, u) && c'.lines[x].dirty;
      }
    }
  }

  /** A cache without valid lines. */
  lemma EmptyKeeps(h: Shape, c: Cache)
    requires h.Valid() && (forall s :: s in c.lines <==> h.Has(s)) && forall s :: s in c.lines ==> !c.lines[s].valid
    ensures Inv(h, c) && forall t :: !Cached(c, t)
  {
  }

  lemma InvKeys(h: Shape, c: Cache)
    requires Inv(h, c)
    ensures h.Valid() && Placed(h, c.lines) && forall s :: s in c.lines <==> h.Has(s)
  {
  }

  /** A write that has to evict: send the value if it fills the line, flush the victims, store the value. */
  lemma EvictionWrites(h: Shape, c: Cache, c1: Cache, c2: Cache, done: set<Slot>, s: Slot, t: nat, v: int, at: Tick,
      dirty: bool)
    requires Inv(h, c) && !Cached(c, t) && c1 == (if dirty then c else SendTag(h, c, t, v))
    requires Inv(h, c2) && Drained(h, c1, c2, done)
    requires h.Has(s) && s.set_ == SetIndex(h, t) && !c2.lines[s].valid
    ensures var c' := Store(h, c2, s, t, v, at, true, false);
            Inv(h, c') && Holds(c', s, t) && Written(h, c, c', t, v)
  {
    hide View, Inv;
    InvKeys(h, c);
    var c' := Store(h, c2, s, t, v, at, true, false);
    if !dirty { SendUncached(h, c, t, v); }
    assert !Cached(c2, t) by {
      assert forall x :: Holds(c2, x, t) ==> Holds(c, x, t);
    }
    InvKeys(h, c2);
    StoreSets(h, c2, s, t, v, at, true, false);
    EvictionSends(h, c, c1, c2, done, t, v, dirty);
    assert c'.sent == c2.sent;
    forall u | DirtyLine(c, u)
      ensures DirtyLine(c', u) || SentSince(h, c, c', u)
    {
      var x :| Holds(c, x, u) && c.lines[x].dirty;
      if x in done {
        assert SentFor(h, c.lines[x]) in c2.sent[|c1.sent|..];
        var k :| |c1.sent| <= k < |c2.sent| && c2.sent[k] == SentFor(h, c.lines[x]);
        assert (c'.sent[k].lpn, c'.sent[k].unit) == Key(h, u);
      } else {
        assert x != s;
        assert Holds(c', x, u) && c'.lines[x].dirty;
      }
    }
  }

  /** The line an evicted line's entry in the log comes from. */
  lemma LoggedSource(h: Shape, c: Cache, c': Cache, done: set<Slot>, k: nat) returns (s: Slot)
    requires h.Valid() && Logged(h, c, c', done) && |c.sent| <= k < |c'.sent|
    ensures s in done && Accounts(h, c, s, c'.sent[k])
  {
    var x := c'.sent[k];
    assert exists y :: y in done && Accounts(h, c, y, x);
    s :| s in done && Accounts(h, c, s, x);
  }

  lemma EvictionSends(h: Shape, c: Cache, c1: Cache, c2: Cache, done: set<Slot>, t: nat, v: int, dirty: bool)
    requires h.Valid() && c1 == (if dirty then c else SendTag(h, c, t, v)) && Logged(h, c1, c2, done)
    ensures SendsDirty(h, c, c2, t, v) && |c.sent| <= |c2.sent| && c2.sent[..|c.sent|] == c.sent
  {
    assert c1.sent[..|c.sent|] == c.sent;
    assert c2.sent[..|c.sent|] == c2.sent[..|c1.sent|][..|c.sent|];
    forall k | |c.sent| <= k < |c2.sent|
      ensures || c2.sent[k] == Sent(t / h.units, t % h.units, v)
              || exists s :: Accounts(h, c, s, c2.sent[k])
    {
      if k < |c1.sent| {
        assert c2.sent[k] == c2.sent[..|c1.sent|][k];
      } else {
        var s := LoggedSource(h, c1, c2, done, k);
        assert Accounts(h, c, s, c2.sent[k]);
      }
    }
  }
}
