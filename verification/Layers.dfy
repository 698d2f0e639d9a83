/** The layers together: what ICL writes, the cache keeps or sends below, and the translation layer stores. */
module Layers {
  import opened Outcomes
  import C = WriteBack
  import I = IclWrites
  import S = FtlState
  import R = FtlRun

  /** A write request of the host interface: data for the pages from slpn on. */
  datatype PageWrite = PageWrite(slpn: nat, data: seq<int>)

  /** The data last written to a page. */
  function LastData(ws: seq<PageWrite>, t: nat): Option<int> {
    if ws == [] then None
    else
      var w := ws[|ws| - 1];
      if w.slpn <= t < w.slpn + |w.data| then Some(w.data[t - w.slpn]) else LastData(ws[..|ws| - 1], t)
  }

  /** The states of the cache before, between and after these requests, from an empty cache on an empty device. */
  ghost predicate Trace(h: C.Shape, cs: seq<C.Cache>, ws: seq<PageWrite>) {
    && h.Valid() && |cs| == |ws| + 1
    && cs[0].sent == [] && cs[0].store == map[] && (forall t :: !C.Cached(cs[0], t))
    && (forall i :: 0 <= i < |cs| ==> C.Inv(h, cs[i]))
    && forall i :: 0 <= i < |ws| ==> I.Answers(h, cs[i], cs[i + 1], ws[i].slpn, ws[i].data)
  }

  lemma TracePrefix(h: C.Shape, cs: seq<C.Cache>, ws: seq<PageWrite>)
    requires Trace(h, cs, ws) && ws != []
    ensures Trace(h, cs[..|ws|], ws[..|ws| - 1])
  {
    hide I.Answers, C.Inv;
  }

  /** A reader of the cache and of an ideal store below gets the data last written. */
  lemma {:induction false} CacheShowsLast(h: C.Shape, cs: seq<C.Cache>, ws: seq<PageWrite>, t: nat)
    requires Trace(h, cs, ws)
    ensures C.View(h, cs[|ws|], t) == LastData(ws, t)
    decreases |ws|
  {
    hide C.View, I.Answers, C.Inv;
    var n := |ws|;
    if n == 0 {
      C.ViewBelow(h, cs[0], t);
    } else {
      TracePrefix(h, cs, ws);
      CacheShowsLast(h, cs[..n], ws[..n - 1], t);
      AnswerIs(h, cs[n - 1], cs[n], ws[n - 1], t);
    }
  }

  lemma AnswerIs(h: C.Shape, c: C.Cache, c': C.Cache, w: PageWrite, t: nat)
    requires h.Valid() && I.Answers(h, c, c', w.slpn, w.data)
    ensures C.View(h, c', t) == if w.slpn <= t < w.slpn + |w.data| then Some(w.data[t - w.slpn]) else C.View(h, c, t)
  {
    hide C.View, C.KeepsDirty;
  }

  /** Everything that was ever sent below names a unit of a logical page. */
  lemma {:induction false} TraceSendsUnits(h: C.Shape, cs: seq<C.Cache>, ws: seq<PageWrite>)
    requires Trace(h, cs, ws)
    ensures forall k :: 0 <= k < |cs[|ws|].sent| ==> cs[|ws|].sent[k].unit < h.units
    decreases |ws|
  {
    hide I.Answers, C.Inv;
    var n := |ws|;
    if n > 0 {
      TracePrefix(h, cs, ws);
      TraceSendsUnits(h, cs[..n], ws[..n - 1]);
      UnitsExtend(h, cs[n - 1], cs[n], ws[n - 1]);
    }
  }

  lemma UnitsExtend(h: C.Shape, c: C.Cache, c': C.Cache, w: PageWrite)
    requires h.Valid() && I.Answers(h, c, c', w.slpn, w.data)
    requires forall k :: 0 <= k < |c.sent| ==> c.sent[k].unit < h.units
    ensures forall k :: 0 <= k < |c'.sent| ==> c'.sent[k].unit < h.units
  {
    hide C.View;
    forall k | 0 <= k < |c'.sent|
      ensures c'.sent[k].unit < h.units
    {
      if k < |c.sent| { assert c'.sent[k] == c'.sent[..|c.sent|][k]; }
    }
  }

  // ----- the translation layer below ---------------------------------------------------------------------------

  /** The request the translation layer gets: one unit of one logical page, and any victims it may choose. */
  ghost predicate Carries(g: S.Geometry, x: C.Sent, op: R.Op) {
    && op.WriteOp? && op.Shaped(g) && op.lpn == x.lpn
    && forall u :: 0 <= u < g.units ==> (op.flags[u] <==> u == x.unit) && (u == x.unit ==> op.data[u] == x.data)
  }

  ghost predicate Serves(g: S.Geometry, sent: seq<C.Sent>, ops: seq<R.Op>) {
    |ops| == |sent| && forall i :: 0 <= i < |sent| ==> Carries(g, sent[i], ops[i])
  }

  /** What is stored below is what the translation layer's history says was written last. */
  lemma {:induction false} StoredIsLastWritten(g: S.Geometry, sent: seq<C.Sent>, ops: seq<R.Op>, l: nat, u: nat)
    requires Serves(g, sent, ops) && u < g.units && forall k :: 0 <= k < |sent| ==> sent[k].unit < g.units
    ensures var store := C.Stored(map[], sent);
            R.LastWritten(ops, l, u) == if (l, u) in store then Some(store[(l, u)]) else None
    decreases |sent|
  {
    if sent != [] {
      var n := |sent| - 1;
      assert Carries(g, sent[n], ops[n]);
      StoredIsLastWritten(g, sent[..n], ops[..n], l, u);
    }
  }

  /** What a reader gets through both layers: the cached line, or what the translation layer has in flash. */
  ghost function Through(h: C.Shape, g: S.Geometry, c: C.Cache, f: S.Ftl, t: nat): Option<int>
    requires h.Valid() && h.units <= g.units && S.Inv(g, f)
  {
    if s :| C.Holds(c, s, t) then Some(c.lines[s].data)
    else if t / h.units in f.table then S.Seen(g, f, t / h.units, t % h.units) else None
  }

  /** Host requests through ICL, cache and translation layer, from a new device: whatever the cache evicts when, and
      whatever the translation layer collects when, a reader of a page gets the data last written to it. With one
      unit per page, as long as no collection meets a stale page. */
  lemma ReaderGetsLastWritten(h: C.Shape, cs: seq<C.Cache>, ws: seq<PageWrite>, g: S.Geometry, k: R.Policy,
      ops: seq<R.Op>, t: nat)
    requires Trace(h, cs, ws) && cs[|ws|].store == C.Stored(map[], cs[|ws|].sent)
    requires g.Valid() && h.units <= g.units && Serves(g, cs[|ws|].sent, ops) && R.Fresh(g).Ok?
    requires R.LegalRun(g, k, R.Fresh(g).value, ops)
    requires 1 < g.units || R.TruthfulRun(g, k, R.Fresh(g).value, ops)
    requires R.Run(g, k, R.Fresh(g).value, ops).Ok?
    ensures var f := R.Run(g, k, R.Fresh(g).value, ops).value;
            S.Inv(g, f) && Through(h, g, cs[|ws|], f, t) == LastData(ws, t)
  {
    hide R.LegalRun, R.TruthfulRun, R.Run, R.Fresh, S.Shape, S.Partition, S.Backward, S.Seen;
    hide C.Stored, I.Answers, C.Inv;
    var c := cs[|ws|];
    var l, u := t / h.units, t % h.units;
    TraceSendsUnits(h, cs, ws);
    CacheShowsLast(h, cs, ws, t);
    R.ReadsLastWritten(g, k, ops, l, u);
    StoredIsLastWritten(g, c.sent, ops, l, u);
    var f := R.Run(g, k, R.Fresh(g).value, ops).value;
    if C.Cached(c, t) {
      ThroughLine(h, g, c, f, t);
    } else {
      C.ViewBelow(h, c, t);
      assert forall s :: !C.Holds(c, s, t);
    }
  }

  lemma ThroughLine(h: C.Shape, g: S.Geometry, c: C.Cache, f: S.Ftl, t: nat)
    requires h.Valid() && h.units <= g.units && S.Inv(g, f) && C.Inv(h, c) && C.Cached(c, t)
    ensures Through(h, g, c, f, t) == C.View(h, c, t)
  {
    hide S.Inv;
    var s :| C.Holds(c, s, t);
    assert forall x :: C.Holds(c, x, t) ==> x == s;
  }
}
