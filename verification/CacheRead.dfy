/** A read miss of icl/generic_cache.cc that fetches one line (no read ahead): what it does to other lines. */
module CacheRead {
  import opened Outcomes
  import opened WriteBack

  ghost function Below(h: Shape, c: Cache, t: nat): Option<int>
    requires h.Valid()
  {
    if Key(h, t) in c.store then Some(c.store[Key(h, t)]) else None
  }

  /** The line at s is taken for tag t. A dirty line that has to make way enters the eviction grid, but it is
      marked clean before evictCache looks at it. */
  function ReadMiss(h: Shape, c: Cache, s: Slot, t: nat, at: Tick, fetched: int): Cache
    requires h.Valid() && s in c.lines
  {
    var l := c.lines[s];
    var evict := l.valid && l.dirty;
    var c1 := SetLine(c, s, l.(insertedAt := at, lastAccessed := at, valid := true, dirty := false));
    var c2 := if evict then Flush(h, c1, s, IoPosition(h, l.tag).0, at) else c1;
    SetLine(c2, s, c2.lines[s].(tag := t, insertedAt := at, lastAccessed := at, data := fetched))
  }

  /** The dirty victim of a read miss is neither kept nor sent: its reader falls back to what was below it.
      Every other reader sees what it saw before. */
  lemma ReadMissDropsDirtyVictim(h: Shape, c: Cache, s: Slot, t: nat, at: Tick, u: nat)
    requires Inv(h, c) && h.Has(s) && s.set_ == SetIndex(h, t) && !Cached(c, t)
    requires Key(h, t) in c.store
    ensures var l := c.lines[s];
            var c' := ReadMiss(h, c, s, t, at, c.store[Key(h, t)]);
            && c'.sent == c.sent && c'.store == c.store
            && View(h, c', u) == if l.valid && l.dirty && u == l.tag then Below(h, c, u) else View(h, c, u)
  {
    var l := c.lines[s];
    var c' := ReadMiss(h, c, s, t, at, c.store[Key(h, t)]);
    assert c'.lines == c.lines[s := c'.lines[s]];
    assert c'.lines[s].valid ==> c'.lines[s].tag == t;
    assert forall x :: x != s ==> (Holds(c', x, u) <==> Holds(c, x, u));
    if Holds(c, s, u) {
      assert u != t && forall x :: !Holds(c', x, u);
      ViewBelow(h, c', u);
      ViewIs(h, c, s, u);
    } else if u == t {
      ViewBelow(h, c, t);
      if Holds(c', s, t) {
        assert forall x :: Holds(c', x, t) ==> x == s;
      } else {
        assert forall x :: !Holds(c', x, t);
        ViewBelow(h, c', t);
      }
    } else if Cached(c, u) {
      var x :| Holds(c, x, u);
      ViewIs(h, c, x, u);
      assert Holds(c', x, u) && forall y :: Holds(c', y, u) ==> y == x;
    } else {
      ViewBelow(h, c, u);
      ViewBelow(h, c', u);
    }
  }

  /** So a read miss loses no dirty line exactly if the line it takes is empty or clean. */
  lemma ReadMissKeepsDirtyIffCleanVictim(h: Shape, c: Cache, s: Slot, t: nat, at: Tick, fetched: int)
    requires Inv(h, c) && h.Has(s) && s.set_ == SetIndex(h, t) && !Cached(c, t)
    ensures KeepsDirty(h, c, ReadMiss(h, c, s, t, at, fetched)) <==> !(c.lines[s].valid && c.lines[s].dirty)
  {
    var l := c.lines[s];
    var c' := ReadMiss(h, c, s, t, at, fetched);
    assert c'.sent == c.sent;
    assert c'.lines == c.lines[s := c'.lines[s]];
    if l.valid && l.dirty {
      assert Holds(c, s, l.tag) && DirtyLine(c, l.tag);
      assert forall x :: !Holds(c', x, l.tag);
    } else {
      forall u | DirtyLine(c, u)
        ensures DirtyLine(c', u)
      {
        var x :| Holds(c, x, u) && c.lines[x].dirty;
        assert Holds(c', x, u) && c'.lines[x].dirty;
      }
    }
  }

  // ----- inputs ---------------------------------------------------------------------------------------------------

  /** A cache of one line above pages of one unit. */
  const Single: Shape := Shape(1, 1, 1, 1)

  const Only: Slot := Slot(0, 0)

  function OneLine(l: Line, store: map<(nat, nat), int>): Cache {
    Cache(map[Only := l], store, [])
  }

  lemma OneLineKeeps(l: Line, store: map<(nat, nat), int>)
    requires l.valid && !l.dirty ==> Backed(Single, store, l)
    ensures Inv(Single, OneLine(l, store))
  {
    assert forall s :: Single.Has(s) <==> s == Only;
  }

  lemma SingleKeys(t: nat)
    ensures Key(Single, t) == (t, 0)
  {
  }

  /** An empty cache; a partial write of tag 0 with value v, then a read of tag 1: the value of tag 0 is gone, and it
      was not sent below. */
  lemma ReadLosesPartialWrite(v: int, at: Tick)
    ensures var c0 := OneLine(EmptyLine, map[(1, 0) := 5]);
            var c1 := Store(Single, c0, Only, 0, v, at, true, false);
            var c2 := ReadMiss(Single, c1, Only, 1, at, 5);
            && Inv(Single, c0) && Inv(Single, c1) && Written(Single, c0, c1, 0, v)
            && View(Single, c1, 0) == Some(v)
            && View(Single, c2, 0) == None && c2.sent == c1.sent && !KeepsDirty(Single, c1, c2)
  {
    hide View, Written, KeepsDirty, Cached;
    var store: map<(nat, nat), int> := map[(1, 0) := 5];
    var c0 := OneLine(EmptyLine, store);
    OneLineKeeps(EmptyLine, store);
    EmptyKeeps(Single, c0);
    StoreWrites(Single, c0, Only, 0, v, at, true);
    StoreSets(Single, c0, Only, 0, v, at, true, false);
    var c1 := Store(Single, c0, Only, 0, v, at, true, false);
    assert c1 == OneLine(Line(0, at, at, true, true, v), store);
    NotCached(c1, 1);
    SingleKeys(0);
    SingleKeys(1);
    ReadMissDropsDirtyVictim(Single, c1, Only, 1, at, 0);
    ReadMissKeepsDirtyIffCleanVictim(Single, c1, Only, 1, at, 5);
  }

  lemma NotCached(c: Cache, t: nat)
    requires c.lines.Keys == {Only} && (c.lines[Only].valid ==> c.lines[Only].tag != t)
    ensures !Cached(c, t)
  {
  }

  /** An empty cache; a read of tag 0, then a write of tag 0 with write caching off: a reader still gets the old
      value. */
  lemma WriteAroundLeavesStaleLine(v: int, at: Tick)
    requires v != 5
    ensures var c0 := OneLine(EmptyLine, map[(0, 0) := 5]);
            var c1 := ReadMiss(Single, c0, Only, 0, at, 5);
            var c2 := SendTag(Single, c1, 0, v);
            && Inv(Single, c0) && Inv(Single, c1) && c2.store[(0, 0)] == v && View(Single, c2, 0) == Some(5)
  {
    var store: map<(nat, nat), int> := map[(0, 0) := 5];
    var c0 := OneLine(EmptyLine, store);
    OneLineKeeps(EmptyLine, store);
    var c1 := ReadMiss(Single, c0, Only, 0, at, 5);
    SingleKeys(0);
    assert c1.lines == map[Only := c1.lines[Only]];
    assert c1 == OneLine(c1.lines[Only], store);
    OneLineKeeps(c1.lines[Only], store);
    var c2 := SendTag(Single, c1, 0, v);
    assert Holds(c2, Only, 0) && forall s :: Holds(c2, s, 0) ==> s == Only;
  }
}
