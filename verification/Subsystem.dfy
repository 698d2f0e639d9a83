/** The namespace list of hil/nvme/subsystem.cc. */
module Subsystems {
  import opened Outcomes
  import opened Arithmetic
  import opened NamespaceRanges

  datatype Namespace = Namespace(nsid: nat, size: nat, lbaSize: nat, range: Range)

  datatype SubsystemFault = Bug

  function RangesOf(ns: seq<Namespace>): seq<Range> {
    seq(|ns|, i requires 0 <= i < |ns| => ns[i].range)
  }

  /** Appending and sorting by identifier: after all that are not larger. */
  function InsertById(ns: seq<Namespace>, x: Namespace): seq<Namespace> {
    if ns == [] || ns[|ns| - 1].nsid <= x.nsid then ns + [x]
    else InsertById(ns[..|ns| - 1], x) + [ns[|ns| - 1]]
  }

  lemma {:induction false} InsertedRanges(ns: seq<Namespace>, x: Namespace, total: nat)
    requires Disjoint(RangesOf(ns), total) && 0 < x.range.nlp && x.range.End() <= total
    requires forall i :: 0 <= i < |ns| ==> Apart(ns[i].range, x.range)
    ensures Disjoint(RangesOf(InsertById(ns, x)), total)
    ensures forall y :: y in InsertById(ns, x) <==> y in ns || y == x
    decreases |ns|
  {
    if ns == [] || ns[|ns| - 1].nsid <= x.nsid {
      assert RangesOf(ns + [x]) == RangesOf(ns) + [x.range];
      DisjointSnoc(RangesOf(ns), x.range, total);
    } else {
      var n := |ns| - 1;
      assert RangesOf(ns)[..n] == RangesOf(ns[..n]);
      DisjointFront(RangesOf(ns), total);
      InsertedRanges(ns[..n], x, total);
      var s := InsertById(ns[..n], x);
      assert RangesOf(s + [ns[n]]) == RangesOf(s) + [ns[n].range];
      forall i | 0 <= i < |s|
        ensures Apart(s[i].range, ns[n].range)
      {
        if s[i] != x {
          assert s[i] in ns[..n];
          var j :| 0 <= j < n && ns[j] == s[i];
          assert RangesOf(ns)[j] == s[i].range && RangesOf(ns)[n] == ns[n].range;
        }
      }
      DisjointSnoc(RangesOf(s), ns[n].range, total);
    }
  }

  /** A range that may be given to a namespace beside these. */
  ghost predicate Suits(ns: seq<Namespace>, r: Range, total: nat) {
    0 < r.nlp && r.End() <= total && forall i :: 0 <= i < |ns| ==> Apart(ns[i].range, r)
  }

  /** Adding a namespace keeps ranges disjoint exactly if its own range suits. */
  lemma InsertedRangesIff(ns: seq<Namespace>, x: Namespace, total: nat)
    requires Disjoint(RangesOf(ns), total)
    ensures Disjoint(RangesOf(InsertById(ns, x)), total) <==> Suits(ns, x.range, total)
  {
    hide Disjoint, InsertById;
    if Suits(ns, x.range, total) { InsertedRanges(ns, x, total); }
    if Disjoint(RangesOf(InsertById(ns, x)), total) { InsertedSuits(ns, x, total); }
  }

  lemma {:induction false} InsertedSuits(ns: seq<Namespace>, x: Namespace, total: nat)
    requires Disjoint(RangesOf(InsertById(ns, x)), total)
    ensures Suits(ns, x.range, total)
    decreases |ns|
  {
    hide Disjoint, Apart;
    if ns == [] || ns[|ns| - 1].nsid <= x.nsid {
      assert RangesOf(ns + [x])[..|ns|] == RangesOf(ns) && RangesOf(ns + [x])[|ns|] == x.range;
      DisjointFront(RangesOf(ns + [x]), total);
      assert forall i :: 0 <= i < |ns| ==> ns[i].range == RangesOf(ns)[i];
    } else {
      var n := |ns| - 1;
      var s := InsertById(ns[..n], x);
      var rs := RangesOf(s + [ns[n]]);
      assert rs[..|s|] == RangesOf(s) && rs[|s|] == ns[n].range;
      DisjointFront(rs, total);
      InsertedSuits(ns[..n], x, total);
      InsertedMember(ns[..n], x);
      var k :| 0 <= k < |s| && s[k] == x;
      assert RangesOf(s)[k] == x.range;
      ApartBoth(x.range, ns[n].range);
    }
  }

  lemma ApartBoth(a: Range, b: Range)
    ensures Apart(a, b) == Apart(b, a)
  {
  }

  lemma {:induction false} InsertedMember(ns: seq<Namespace>, x: Namespace)
    ensures x in InsertById(ns, x)
    decreases |ns|
  {
    if ns != [] && ns[|ns| - 1].nsid > x.nsid { InsertedMember(ns[..|ns| - 1], x); }
  }

  /** A device that is full, and a range left over from an earlier call: the new namespace overlaps. */
  lemma StaleRangeOverlaps()
    ensures var ns, total := [Namespace(1, 2, 1, Range(0, 2))], 2;
            && Disjoint(RangesOf(ns), total) && IsFirstFit(RangesOf(ns), total, 1, None)
            && !Disjoint(RangesOf(InsertById(ns, Namespace(2, 1, 1, Range(0, 2)))), total)
  {
    var ns := [Namespace(1, 2, 1, Range(0, 2))];
    assert RangesOf(ns) == [Range(0, 2)];
    forall x: nat | FreeRun(RangesOf(ns), 2, x, 1)
      ensures false
    {
      assert RangesOf(ns)[0].Has(x);
      assert Allocated(RangesOf(ns), x);
    }
    var rs := RangesOf(InsertById(ns, Namespace(2, 1, 1, Range(0, 2))));
    assert rs[0] == rs[1] == Range(0, 2);
  }

  // ----- identifiers -------------------------------------------------------------------------------------------

  /** Identifiers grow along the list and start at 1 or above, so no two namespaces share one. */
  ghost predicate Ordered(ns: seq<Namespace>) {
    && (forall i, j :: 0 <= i < j < |ns| ==> ns[i].nsid < ns[j].nsid)
    && (forall i :: 0 <= i < |ns| ==> 1 <= ns[i].nsid)
  }

  ghost predicate IdUsed(ns: seq<Namespace>, nsid: nat) {
    exists i :: 0 <= i < |ns| && ns[i].nsid == nsid
  }

  /** Adding a namespace keeps identifiers distinct exactly if its own is not used yet. */
  lemma InsertedIdsIff(ns: seq<Namespace>, x: Namespace)
    requires Ordered(ns) && 1 <= x.nsid
    ensures Ordered(InsertById(ns, x)) <==> !IdUsed(ns, x.nsid)
  {
    hide InsertById;
    if !IdUsed(ns, x.nsid) {
      InsertedOrder(ns, x);
    } else {
      var i :| 0 <= i < |ns| && ns[i].nsid == x.nsid;
      var j, k := InsertedTwice(ns, x, i);
      assert InsertById(ns, x)[j].nsid == InsertById(ns, x)[k].nsid;
    }
  }

  lemma {:induction false} InsertedOrder(ns: seq<Namespace>, x: Namespace)
    requires Ordered(ns) && 1 <= x.nsid && !IdUsed(ns, x.nsid)
    ensures Ordered(InsertById(ns, x))
    ensures forall y :: y in InsertById(ns, x) ==> y in ns || y == x
    decreases |ns|
  {
    if ns != [] && x.nsid < ns[|ns| - 1].nsid {
      var n := |ns| - 1;
      assert forall i :: 0 <= i < n ==> ns[..n][i] == ns[i];
      InsertedOrder(ns[..n], x);
      var s := InsertById(ns[..n], x);
      forall i | 0 <= i < |s|
        ensures s[i].nsid < ns[n].nsid
      {
        assert s[i] in s;
      }
    }
  }

  /** The new namespace and an old one with its identifier stand in two places. */
  lemma {:induction false} InsertedTwice(ns: seq<Namespace>, x: Namespace, i: nat) returns (j: nat, k: nat)
    requires i < |ns| && ns[i].nsid == x.nsid
    ensures j < k < |InsertById(ns, x)| && InsertById(ns, x)[j].nsid == InsertById(ns, x)[k].nsid == x.nsid
    decreases |ns|
  {
    var n := |ns| - 1;
    if ns[n].nsid <= x.nsid {
      j, k := i, |ns|;
    } else {
      assert i < n;
      j, k := InsertedTwice(ns[..n], x, i);
    }
  }

  lemma UsedBelow(ns: seq<Namespace>, i: nat)
    requires i <= |ns| && forall k :: 0 <= k < i ==> ns[k].nsid == k + 1
    ensures forall x :: 1 <= x < i + 1 ==> IdUsed(ns, x)
  {
    forall x | 1 <= x < i + 1
      ensures IdUsed(ns, x)
    {
      assert ns[x - 1].nsid == x;
    }
  }

  lemma ErasedIds(ns: seq<Namespace>, i: nat)
    requires i < |ns| && Ordered(ns)
    ensures Ordered(Erase(ns, i))
  {
    var s := Erase(ns, i);
    assert forall j :: 0 <= j < |s| ==> s[j] == ns[if j < i then j else j + 1];
  }

  ghost predicate FirstWithId(ns: seq<Namespace>, nsid: nat, i: nat) {
    i < |ns| && ns[i].nsid == nsid && forall j :: 0 <= j < i ==> ns[j].nsid != nsid
  }

  /** Without the element at i. */
  function Erase(ns: seq<Namespace>, i: nat): seq<Namespace>
    requires i < |ns|
  {
    ns[..i] + ns[i + 1..]
  }

  lemma ErasedRanges(ns: seq<Namespace>, i: nat, total: nat)
    requires i < |ns| && Disjoint(RangesOf(ns), total)
    ensures Disjoint(RangesOf(Erase(ns, i)), total)
  {
    var rs, ss := RangesOf(ns), RangesOf(Erase(ns, i));
    forall j | 0 <= j < |ss|
      ensures ss[j] == rs[if j < i then j else j + 1]
    {
    }
  }

  /** A run fits or none does. */
  lemma FitsOrNot(rs: seq<Range>, total: nat, pages: nat, fit: Option<Range>)
    requires 0 < pages ==> IsFirstFit(rs, total, pages, fit)
    ensures 0 < pages ==> (IsFirstFit(rs, total, pages, None) <==> fit.None?)
    ensures 0 < pages && fit.Some? ==> fit.value.nlp == pages
  {
    if 0 < pages && fit.Some? { assert FreeRun(rs, total, fit.value.slpn, pages); }
  }

  /** A first fit keeps clear of the namespaces there are. */
  lemma FitSuits(ns: seq<Namespace>, total: nat, pages: nat, r: Range)
    requires Disjoint(RangesOf(ns), total) && 0 < pages && IsFirstFit(RangesOf(ns), total, pages, Some(r))
    ensures Suits(ns, r, total)
  {
    hide Disjoint, Apart;
    FreeRunIsApart(RangesOf(ns), total, r);
    assert forall i :: 0 <= i < |ns| ==> ns[i].range == RangesOf(ns)[i];
  }

  // ----- equal shares --------------------------------------------------------------------------------------------

  /** The blocks in one of n equal namespaces. */
  function EqualSize(total: nat, pageSize: nat, lbaSize: nat, n: nat): nat
    requires 0 < lbaSize && 0 < n
  {
    total * pageSize / lbaSize / n
  }

  /** n shares fit in the device. */
  lemma EqualShares(total: nat, pageSize: nat, lbaSize: nat, n: nat)
    requires 0 < pageSize && 0 < lbaSize && 0 < n
    ensures Share(n, PagesAtCreate(EqualSize(total, pageSize, lbaSize, n), lbaSize, pageSize)) <= total
  {
    var a := total * pageSize / lbaSize;
    var b := a / n;
    var c := b / pageSize;
    RoundsDown(total * pageSize, lbaSize);
    RoundsDown(a, n);
    RoundsDown(b, pageSize);
    Regroup3(n, c, lbaSize, pageSize);
    NotLess(c * pageSize * n, b * n, lbaSize);
    NotLess(c * pageSize, b, n);
    NotLess(b * n, a, lbaSize);
    CancelFactor(n * (c * lbaSize), total, pageSize);
  }

  lemma RoundsDown(x: nat, n: nat)
    requires 0 < n
    ensures (x / n) * n <= x
  {
    DivMod(x, n);
  }

  lemma Regroup3(n: nat, c: nat, l: nat, p: nat)
    ensures (n * (c * l)) * p == (c * p * n) * l
  {
    Associate(n, c, l);
    Swap(n, c, p);
    assert ((n * c) * l) * p == ((n * c) * p) * l;
    assert (n * c) * p == c * p * n;
  }

  lemma Swap(n: nat, c: nat, p: nat)
    ensures (n * c) * p == (c * p) * n
  {
  }

  lemma CancelFactor(x: nat, y: nat, n: nat)
    requires 0 < n && x * n <= y * n
    ensures x <= y
  {
    BelowIff(y, 0, n, x);
  }

  /** i namespaces of the same size, one after the other from page 0 on. */
  ghost predicate SideBySide(ns: seq<Namespace>, pages: nat, i: nat) {
    |ns| == i && forall k :: 0 <= k < i ==> ns[k].nsid == k + 1 && ns[k].range == Range(Share(k, pages), pages)
  }

  lemma NoShares(pages: nat)
    ensures SideBySide([], pages, 0)
  {
  }

  function Share(k: nat, pages: nat): nat {
    k * pages
  }

  lemma Shares(k: nat, pages: nat)
    ensures Share(k + 1, pages) == Share(k, pages) + pages && Share(0, pages) == 0
  {
  }

  lemma SharesGrow(j: nat, k: nat, pages: nat)
    requires j <= k
    ensures Share(j, pages) <= Share(k, pages)
  {
    NotLess(j, k, pages);
  }

  /** Which share a page belongs to. */
  lemma ShareOf(x: nat, i: nat, pages: nat) returns (k: nat)
    requires x < Share(i, pages)
    ensures k < i && Share(k, pages) <= x < Share(k, pages) + pages
  {
    k := x / pages;
    DivMod(x, pages);
    QuotientBelow(x, pages, i);
  }

  /** The lowest free run for the next share lies behind the others. */
  lemma NextShareFits(ns: seq<Namespace>, pages: nat, i: nat, total: nat, fit: Option<Range>)
    requires SideBySide(ns, pages, i) && 0 < pages && Share(i + 1, pages) <= total
    requires IsFirstFit(RangesOf(ns), total, pages, fit)
    ensures fit == Some(Range(Share(i, pages), pages))
  {
    hide Share;
    var rs := RangesOf(ns);
    var at := Share(i, pages);
    Shares(i, pages);
    forall k | 0 <= k < i
      ensures rs[k].End() <= at
    {
      Shares(k, pages);
      SharesGrow(k + 1, i, pages);
    }
    assert forall k :: 0 <= k < i ==> ns[k].range == rs[k];
    assert FreeRun(rs, total, at, pages);
    forall x: nat | x < at
      ensures !FreeRun(rs, total, x, pages)
    {
      var k := ShareOf(x, i, pages);
      assert rs[k].Has(x);
      assert Allocated(rs, x);
    }
  }

  lemma AppendShare(ns: seq<Namespace>, pages: nat, i: nat, x: Namespace)
    requires SideBySide(ns, pages, i) && x.nsid == i + 1 && x.range == Range(Share(i, pages), pages)
    ensures InsertById(ns, x) == ns + [x] && SideBySide(InsertById(ns, x), pages, i + 1)
  {
  }

  lemma SharesAre(ns: seq<Namespace>, pages: nat, n: nat)
    requires SideBySide(ns, pages, n)
    ensures |ns| == n && forall i :: 0 <= i < n ==> ns[i].range == Range(Share(i, pages), pages)
  {
  }

  /** The counter does not wrap while the shares fit in the device. */
  lemma CounterCounts(i: nat, pages: nat, total: nat)
    requires Share(i + 1, pages) <= total < Wrap
    ensures !(pages > (total - Share(i, pages)) % Wrap) && (Share(i, pages) + pages) % Wrap == Share(i + 1, pages)
  {
    hide Share;
    Shares(i, pages);
  }

  class Subsystem {
    const totalLogicalPages: nat
    const logicalPageSize: nat
    var namespaces: seq<Namespace>
    /** A 64-bit counter. */
    var allocatedLogicalPages: nat

    ghost predicate Valid()
      reads this
    {
      0 < logicalPageSize && Disjoint(RangesOf(namespaces), totalLogicalPages)
    }

    constructor (totalLogicalPages: nat, logicalPageSize: nat)
      requires 0 < logicalPageSize
      ensures Valid() && namespaces == []
      ensures this.totalLogicalPages == totalLogicalPages && this.logicalPageSize == logicalPageSize
    {
      this.totalLogicalPages, this.logicalPageSize := totalLogicalPages, logicalPageSize;
      namespaces, allocatedLogicalPages := [], 0;
    }

    /** Split the last free range at each allocated one. */
    method Invert(taken: seq<Range>) returns (r: Outcome<seq<Range>, SubsystemFault>)
      requires Stacked(taken, totalLogicalPages)
      ensures r == Ok(Gaps(taken, totalLogicalPages))
    {
      var free := [Range(0, totalLogicalPages)];
      for i := 0 to |taken|
        invariant |free| == i + 1
        invariant forall k :: 0 <= k < i ==> free[k] == Gap(taken, totalLogicalPages, k)
        invariant free[i].slpn == Gap(taken, totalLogicalPages, i).slpn && free[i].End() == totalLogicalPages
      {
        var last, a := free[|free| - 1], taken[i];
        if last.slpn <= a.slpn && last.End() >= a.End() {
          free := free[..i] + [Range(last.slpn, a.slpn - last.slpn), Range(a.End(), last.End() - a.slpn - a.nlp)];
        } else {
          return Panic(Bug);
        }
      }
      assert free == Gaps(taken, totalLogicalPages);
      r := Ok(free);
    }

    /** The first free range that is large enough. */
    method FirstFit(free: seq<Range>, pages: nat) returns (k: nat)
      ensures k <= |free| && (forall j :: 0 <= j < k ==> free[j].nlp < pages) && (k < |free| ==> free[k].nlp >= pages)
    {
      k := 0;
      while k < |free| && free[k].nlp < pages
        invariant k <= |free| && forall j :: 0 <= j < k ==> free[j].nlp < pages
      {
        k := k + 1;
      }
    }

    /** Find room for a new namespace whose range is not set yet. */
    method Place(pages: nat) returns (r: Outcome<Option<Range>, SubsystemFault>)
      requires Valid()
      ensures r.Ok?
      ensures 0 < pages ==> IsFirstFit(RangesOf(namespaces), totalLogicalPages, pages, r.value)
      ensures pages == 0 ==> r.value == None
    {
      hide Gaps, Stacked;
      var taken := SortByStart(RangesOf(namespaces));
      SortStacks(RangesOf(namespaces), totalLogicalPages);
      var inverted := Invert(taken);
      if inverted.Panic? { return Panic(Bug); }
      var free := inverted.value;
      var k := FirstFit(free, pages);
      if k == |free| || pages == 0 {
        r := Ok(None);
      } else {
        r := Ok(Some(Range(free[k].slpn, pages)));
      }
      if 0 < pages {
        FirstGapIsFirstFit(taken, totalLogicalPages, pages, k);
        FirstFitUnsorted(RangesOf(namespaces), totalLogicalPages, pages, r.value);
      }
    }

    /** createNamespace. `incoming` is the range the caller's information block holds, `range` what it holds
        afterwards. The lowest free run of pages is taken; if there is none, a range that is not empty is used as it
        is. So the ranges stay disjoint exactly if there is no request to serve (more pages than the counter has left,
        or none), or a run fits, or the incoming range is empty or happens to suit. The fault cannot happen. */
    method Create(nsid: nat, size: nat, lbaSize: nat, incoming: Range)
      returns (r: Outcome<bool, SubsystemFault>, range: Range)
      requires Valid()
      modifies this
      ensures r.Ok? && 0 < logicalPageSize
      ensures var pages := PagesAtCreate(size, lbaSize, logicalPageSize);
              var rs := old(RangesOf(namespaces));
              if pages > (totalLogicalPages - old(allocatedLogicalPages)) % Wrap then !r.value && range == incoming
              else if pages == 0 then !r.value && range.nlp == 0
              else if IsFirstFit(rs, totalLogicalPages, pages, None)
              then r.value == (incoming.nlp != 0) && range == incoming
              else r.value && IsFirstFit(rs, totalLogicalPages, pages, Some(range))
      ensures r.value ==> namespaces == InsertById(old(namespaces), Namespace(nsid, size, lbaSize, range))
      ensures r.value ==>
          allocatedLogicalPages == (old(allocatedLogicalPages) + PagesAtCreate(size, lbaSize, logicalPageSize)) % Wrap
      ensures !r.value ==> namespaces == old(namespaces) && allocatedLogicalPages == old(allocatedLogicalPages)
      ensures var pages := PagesAtCreate(size, lbaSize, logicalPageSize);
              Valid() <==>
              || pages > (totalLogicalPages - old(allocatedLogicalPages)) % Wrap
              || pages == 0
              || !IsFirstFit(old(RangesOf(namespaces)), totalLogicalPages, pages, None)
              || incoming.nlp == 0
              || Suits(old(namespaces), incoming, totalLogicalPages)
      ensures incoming.nlp == 0 ==> Valid()
    {
      hide PagesAtCreate, IsFirstFit, Suits;
      var pages := PagesAtCreate(size, lbaSize, logicalPageSize);
      if pages > (totalLogicalPages - allocatedLogicalPages) % Wrap { return Ok(false), incoming; }
      var placed := Place(pages);
      if placed.Panic? { return Panic(Bug), incoming; }
      FitsOrNot(RangesOf(namespaces), totalLogicalPages, pages, placed.value);
      range := if pages == 0 then Range(0, 0) else if placed.value.Some? then placed.value.value else incoming;
      if range.nlp == 0 { return Ok(false), range; }
      var x := Namespace(nsid, size, lbaSize, range);
      if placed.value.Some? { FitSuits(namespaces, totalLogicalPages, pages, range); }
      InsertedRangesIff(namespaces, x, totalLogicalPages);
      allocatedLogicalPages := (allocatedLogicalPages + pages) % Wrap;
      namespaces := InsertById(namespaces, x);
      r := Ok(true);
    }

    /** The identifier a create command is given: the lowest one that is not used. */
    method LowestUnusedId() returns (nsid: nat)
      requires Ordered(namespaces)
      ensures 1 <= nsid && !IdUsed(namespaces, nsid)
      ensures forall x :: 1 <= x < nsid ==> IdUsed(namespaces, x)
    {
      nsid := 1;
      for i := 0 to |namespaces|
        invariant nsid == i + 1
        invariant forall k :: 0 <= k < i ==> namespaces[k].nsid == k + 1
      {
        if namespaces[i].nsid != nsid {
          assert 0 < i ==> namespaces[i - 1].nsid < namespaces[i].nsid;
          assert forall k :: i <= k < |namespaces| ==> nsid < namespaces[k].nsid;
          UsedBelow(namespaces, i);
          return;
        }
        nsid := nsid + 1;
      }
      UsedBelow(namespaces, |namespaces|);
    }

    /** The end of a create command, once its data has arrived: the information block is a new one, so its range is
        empty. Ranges stay disjoint in every case. The identifier was chosen when the command came in, so identifiers
        stay distinct exactly if no other command has taken it since. */
    method CreateByCommand(nsid: nat, size: nat, lbaSize: nat) returns (created: bool)
      requires Valid() && Ordered(namespaces) && 1 <= nsid
      modifies this
      ensures Valid()
      ensures var pages := PagesAtCreate(size, lbaSize, logicalPageSize);
              created <==>
              && 0 < pages <= (totalLogicalPages - old(allocatedLogicalPages)) % Wrap
              && !IsFirstFit(old(RangesOf(namespaces)), totalLogicalPages, pages, None)
      ensures !created ==> namespaces == old(namespaces)
      ensures created ==> (Ordered(namespaces) <==> !IdUsed(old(namespaces), nsid))
      ensures created ==>
          exists range :: && namespaces == InsertById(old(namespaces), Namespace(nsid, size, lbaSize, range))
                          && IsFirstFit(old(RangesOf(namespaces)), totalLogicalPages,
                                        PagesAtCreate(size, lbaSize, logicalPageSize), Some(range))
    {
      hide PagesAtCreate, IsFirstFit, Suits, Disjoint, Ordered, IdUsed;
      ghost var was := namespaces;
      var r, range := Create(nsid, size, lbaSize, Range(0, 0));
      created := r.Ok? && r.value;
      if created { InsertedIdsIff(was, Namespace(nsid, size, lbaSize, range)); }
    }

    /** init(): n equal namespaces on an empty device, all created through one information block. Every request
        fits, so no stale range is ever used: the namespaces lie side by side. It fails exactly if the share of
        a namespace is less than a page. */
    method Initialize(n: nat, lbaSize: nat) returns (created: bool)
      requires Valid() && namespaces == [] && allocatedLogicalPages == 0 && 0 < lbaSize && 0 < n
      requires totalLogicalPages < Wrap
      modifies this
      ensures Valid()
      ensures var size := EqualSize(totalLogicalPages, logicalPageSize, lbaSize, n);
              var pages := PagesAtCreate(size, lbaSize, logicalPageSize);
              && created == (0 < pages)
              && (created ==> |namespaces| == n)
              && (created ==> forall i :: 0 <= i < n ==> namespaces[i].range == Range(Share(i, pages), pages))
    {
      hide PagesAtCreate, IsFirstFit, Suits, Disjoint, Share, SideBySide, InsertById, EqualSize;
      var size := EqualSize(totalLogicalPages, logicalPageSize, lbaSize, n);
      var range := Range(0, 0);
      ghost var pages := PagesAtCreate(size, lbaSize, logicalPageSize);
      EqualShares(totalLogicalPages, logicalPageSize, lbaSize, n);
      Shares(0, pages);
      NoShares(pages);
      for i := 0 to n
        invariant Valid() && SideBySide(namespaces, pages, i) && allocatedLogicalPages == Share(i, pages)
        invariant i == 0 ==> range == Range(0, 0)
        invariant 0 < i ==> 0 < pages
      {
        Shares(i, pages);
        SharesGrow(i + 1, n, pages);
        CounterCounts(i, pages, totalLogicalPages);
        ghost var was := namespaces;
        ghost var rs := RangesOf(was);
        forall fit: Option<Range> | 0 < pages && IsFirstFit(rs, totalLogicalPages, pages, fit)
          ensures fit == Some(Range(Share(i, pages), pages))
        {
          NextShareFits(was, pages, i, totalLogicalPages, fit);
        }
        var made;
        made, range := Create(i + 1, size, lbaSize, range);
        if made.Panic? || !made.value { return false; }
        AppendShare(was, pages, i, Namespace(i + 1, size, lbaSize, range));
      }
      SharesAre(namespaces, pages, n);
      created := true;
    }

    /** The 64-bit counter after the pages of a namespace were returned, as destroyNamespace counts them. */
    function Returned(pages: nat, x: Namespace): nat
      requires 0 < logicalPageSize
    {
      (pages - PagesAtDestroy(x.size, x.lbaSize, logicalPageSize)) % Wrap
    }

    /** destroyNamespace: the first namespace with the identifier goes, the others stay. */
    method Destroy(nsid: nat) returns (found: bool)
      requires Valid()
      modifies this
      ensures Valid()
      ensures found == exists x :: x in old(namespaces) && x.nsid == nsid
      ensures Ordered(old(namespaces)) ==> Ordered(namespaces)
      ensures !found ==> namespaces == old(namespaces)
      ensures !found ==> allocatedLogicalPages == old(allocatedLogicalPages)
      ensures found ==>
          exists i: nat :: FirstWithId(old(namespaces), nsid, i) && namespaces == Erase(old(namespaces), i) &&
                           allocatedLogicalPages == Returned(old(allocatedLogicalPages), old(namespaces)[i])
    {
      hide Disjoint, Ordered, Erase, RangesOf;
      for i := 0 to |namespaces|
        invariant namespaces == old(namespaces) && allocatedLogicalPages == old(allocatedLogicalPages)
        invariant forall j :: 0 <= j < i ==> namespaces[j].nsid != nsid
      {
        if namespaces[i].nsid == nsid {
          var x := namespaces[i];
          ErasedRanges(namespaces, i, totalLogicalPages);
          if Ordered(namespaces) { ErasedIds(namespaces, i); }
          assert FirstWithId(namespaces, nsid, i);
          allocatedLogicalPages := Returned(allocatedLogicalPages, x);
          namespaces := Erase(namespaces, i);
          return true;
        }
      }
      found := false;
    }
  }
}
