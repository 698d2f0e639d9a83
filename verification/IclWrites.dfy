/** ICL::write of icl/icl.cc on top of the cache: one cache write for each page of a request. */
module IclWrites {
  import opened Outcomes
  import opened WriteBack
  import opened GenericCaches
  import opened Arithmetic
  import T = PageTiling

  /** Readers of the first n pages from slpn on see the new data, all others what they saw before. */
  ghost predicate Overlaid(h: Shape, c: Cache, c': Cache, slpn: nat, data: seq<int>, n: nat)
    requires h.Valid() && n <= |data|
  {
    forall u: nat :: View(h, c', u) == if slpn <= u < slpn + n then Some(data[u - slpn]) else View(h, c, u)
  }

  lemma KeepsDirtyTrans(h: Shape, c: Cache, c1: Cache, c2: Cache)
    requires h.Valid() && KeepsDirty(h, c, c1) && KeepsDirty(h, c1, c2)
    ensures KeepsDirty(h, c, c2)
  {
    hide Key, DirtyLine;
    assert c2.sent[..|c.sent|] == c2.sent[..|c1.sent|][..|c.sent|];
    forall u | DirtyLine(c, u) && !DirtyLine(c2, u)
      ensures SentSince(h, c, c2, u)
    {
      if DirtyLine(c1, u) {
        var k :| |c1.sent| <= k < |c2.sent| && (c2.sent[k].lpn, c2.sent[k].unit) == Key(h, u);
      } else {
        var k :| |c.sent| <= k < |c1.sent| && (c1.sent[k].lpn, c1.sent[k].unit) == Key(h, u);
        assert c2.sent[k] == c2.sent[..|c1.sent|][k];
      }
    }
  }

  lemma KeepsDirtyRefl(h: Shape, c: Cache)
    requires h.Valid()
    ensures KeepsDirty(h, c, c)
  {
  }

  /** Everything sent below names a unit of a logical page. */
  ghost predicate SendsUnits(h: Shape, c: Cache, c': Cache) {
    forall k :: |c.sent| <= k < |c'.sent| ==> c'.sent[k].unit < h.units
  }

  /** A request of pages with this data, as a reader and as the layer below see it. */
  ghost predicate Answers(h: Shape, c: Cache, c': Cache, slpn: nat, data: seq<int>)
    requires h.Valid()
  {
    Overlaid(h, c, c', slpn, data, |data|) && KeepsDirty(h, c, c') && SendsUnits(h, c, c')
  }

  lemma WrittenSendsUnits(h: Shape, c: Cache, c1: Cache, c2: Cache, t: nat, v: int)
    requires h.Valid() && SendsUnits(h, c, c1) && Written(h, c1, c2, t, v)
    ensures SendsUnits(h, c, c2)
  {
    hide View;
    forall k | |c.sent| <= k < |c2.sent|
      ensures c2.sent[k].unit < h.units
    {
      if k < |c1.sent| { assert c2.sent[k] == c2.sent[..|c1.sent|][k]; }
    }
  }

  lemma OneMore(h: Shape, c: Cache, c1: Cache, c2: Cache, slpn: nat, data: seq<int>, n: nat)
    requires h.Valid() && n < |data| && Overlaid(h, c, c1, slpn, data, n) && KeepsDirty(h, c, c1)
    requires Written(h, c1, c2, slpn + n, data[n]) && SendsUnits(h, c, c1)
    ensures Overlaid(h, c, c2, slpn, data, n + 1) && KeepsDirty(h, c, c2) && SendsUnits(h, c, c2)
  {
    hide View, KeepsDirty, SendsDirty, SendsUnits;
    KeepsDirtyTrans(h, c, c1, c2);
    WrittenSendsUnits(h, c, c1, c2, slpn + n, data[n]);
  }

  /** The log of what was sent below only grows. */
  ghost predicate Extends(c: Cache, c': Cache) {
    |c.sent| <= |c'.sent| && c'.sent[..|c.sent|] == c.sent
  }

  /** The value was sent below for page t. */
  ghost predicate WasSent(h: Shape, c: Cache, c': Cache, t: nat, v: int)
    requires h.Valid()
  {
    exists k :: |c.sent| <= k < |c'.sent| && c'.sent[k] == Sent(t / h.units, t % h.units, v)
  }

  lemma ExtendsRefl(c: Cache)
    ensures Extends(c, c)
  {
  }

  lemma ExtendsTrans(c: Cache, c1: Cache, c2: Cache)
    requires Extends(c, c1) && Extends(c1, c2)
    ensures Extends(c, c2)
  {
    assert c2.sent[..|c.sent|] == c2.sent[..|c1.sent|][..|c.sent|];
  }

  lemma WrittenExtends(h: Shape, c: Cache, c': Cache, t: nat, v: int)
    requires h.Valid() && Written(h, c, c', t, v)
    ensures Extends(c, c')
  {
    hide View;
  }

  lemma SendExtends(h: Shape, c: Cache, t: nat, v: int)
    requires h.Valid()
    ensures Extends(c, SendTag(h, c, t, v))
  {
  }

  lemma StillSent(h: Shape, c: Cache, c1: Cache, c2: Cache, t: nat, v: int)
    requires h.Valid() && WasSent(h, c, c1, t, v) && Extends(c1, c2)
    ensures WasSent(h, c, c2, t, v)
  {
    var k :| |c.sent| <= k < |c1.sent| && c1.sent[k] == Sent(t / h.units, t % h.units, v);
    assert c2.sent[k] == c2.sent[..|c1.sent|][k];
  }

  lemma FirstIsSent(h: Shape, c: Cache, c1: Cache, c2: Cache, t: nat, v: int)
    requires h.Valid() && Extends(c, c1) && SentFirst(h, c1, c2, t, v)
    ensures WasSent(h, c, c2, t, v)
  {
  }

  /** What the pages of a request send below when write caching is off. */
  function SendPages(h: Shape, c: Cache, slpn: nat, data: seq<int>, n: nat): (r: Cache)
    requires h.Valid() && n <= |data|
    ensures r.lines == c.lines
  {
    if n == 0 then c else SendTag(h, SendPages(h, c, slpn, data, n - 1), slpn + n - 1, data[n - 1])
  }

  /** No line holds one of n pages from slpn on. */
  ghost predicate Uncached(c: Cache, slpn: nat, n: nat) {
    forall u: nat :: slpn <= u < slpn + n ==> !Cached(c, u)
  }

  /** Every page of the request gets its data, no other page changes for a reader, and no dirty line is lost on the
      way, however many evictions the pages cause: always with write caching, and without it if no line holds one
      of the pages. Pieces that fill a line are sent below at once; without write caching every page is. */
  method WriteRequest(cache: GenericCache, pageSize: nat, r: T.PageRequest, data: seq<int>)
    returns (ghost pieces: seq<T.Piece>)
    requires cache.Shaped() && cache.GridEmpty() && (cache.useWriteCaching ==> cache.Consistent())
    requires pageSize < Wrap && |data| == r.nlp
    modifies cache, cache.cacheData, cache.evictData
    ensures cache.Shaped() && cache.GridEmpty()
    ensures cache.useWriteCaching || (old(cache.Consistent()) && Uncached(old(cache.State()), r.slpn, r.nlp)) ==>
              cache.Valid() && Answers(cache.h, old(cache.State()), cache.State(), r.slpn, data)
    ensures |pieces| == r.nlp && (forall i :: 0 <= i < r.nlp ==> pieces[i].page == r.slpn + i)
    ensures T.Snug(pageSize, r) ==>
              T.Tiles(pageSize, pieces, T.Start(pageSize, r), T.Start(pageSize, r) + r.length)
    ensures Extends(old(cache.State()), cache.State())
    ensures forall i :: 0 <= i < r.nlp && pieces[i].length >= cache.lineSize ==>
              WasSent(cache.h, old(cache.State()), cache.State(), r.slpn + i, data[i])
    ensures !cache.useWriteCaching ==> cache.State() == SendPages(cache.h, old(cache.State()), r.slpn, data, r.nlp)
  {
    hide Inv, View, KeepsDirty, Written, DirtyLine, Cached, SendTag, T.Snug, T.Tiles, WasSent, Extends, Evicted, InSet;
    hide SentFirst, OneLineChanged;
    var ps, _ := T.SplitPages(pageSize, r);
    pieces := ps;
    ghost var c0 := cache.State();
    ghost var good := cache.useWriteCaching || (Inv(cache.h, c0) && Uncached(c0, r.slpn, r.nlp));
    KeepsDirtyRefl(cache.h, c0);
    ExtendsRefl(c0);
    for i := 0 to r.nlp
      invariant cache.Shaped() && cache.GridEmpty() && (cache.useWriteCaching ==> cache.Consistent())
      invariant good ==> cache.Valid() && Overlaid(cache.h, c0, cache.State(), r.slpn, data, i)
      invariant good ==> KeepsDirty(cache.h, c0, cache.State()) && SendsUnits(cache.h, c0, cache.State())
      invariant !cache.useWriteCaching ==> cache.State() == SendPages(cache.h, c0, r.slpn, data, i)
      invariant Extends(c0, cache.State())
      invariant forall j :: 0 <= j < i && ps[j].length >= cache.lineSize ==>
                  WasSent(cache.h, c0, cache.State(), r.slpn + j, data[j])
    {
      ghost var c1 := cache.State();
      if !cache.useWriteCaching { SameLines(c0, c1, r.slpn + i); }
      var _ := cache.Write(ps[i].page, ps[i].length, data[i]);
      ghost var c2 := cache.State();
      if cache.useWriteCaching { WrittenExtends(cache.h, c1, c2, r.slpn + i, data[i]); }
      if !cache.useWriteCaching { SendExtends(cache.h, c1, r.slpn + i, data[i]); }
      ExtendsTrans(c0, c1, c2);
      forall j | 0 <= j < i + 1 && ps[j].length >= cache.lineSize
        ensures WasSent(cache.h, c0, c2, r.slpn + j, data[j])
      {
        if j < i {
          StillSent(cache.h, c0, c1, c2, r.slpn + j, data[j]);
        } else {
          FirstIsSent(cache.h, c0, c1, c2, r.slpn + i, data[i]);
        }
      }
      if good { OneMore(cache.h, c0, c1, cache.State(), r.slpn, data, i); }
    }
  }
}
