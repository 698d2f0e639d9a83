/** Logical page ranges of namespaces (hil/nvme/subsystem.cc): the free ranges between allocated ones, and
    first-fit allocation. */
module NamespaceRanges {
  import opened Outcomes
  import opened Arithmetic

  datatype Range = Range(slpn: nat, nlp: nat) {
    function End(): nat {
      slpn + nlp
    }

    predicate Has(x: nat) {
      slpn <= x < slpn + nlp
    }
  }

  predicate Apart(a: Range, b: Range) {
    a.End() <= b.slpn || b.End() <= a.slpn
  }

  /** Allocated ranges: not empty, inside the device, pairwise disjoint. */
  ghost predicate Disjoint(rs: seq<Range>, total: nat) {
    && (forall i :: 0 <= i < |rs| ==> 0 < rs[i].nlp && rs[i].End() <= total)
    && forall i, j :: 0 <= i < j < |rs| ==> Apart(rs[i], rs[j])
  }

  ghost predicate Sorted(rs: seq<Range>) {
    forall i, j :: 0 <= i < j < |rs| ==> rs[i].slpn <= rs[j].slpn
  }

  /** list::sort by first page. */
  function SortByStart(rs: seq<Range>): seq<Range> {
    if rs == [] then [] else InsertByStart(SortByStart(rs[..|rs| - 1]), rs[|rs| - 1])
  }

  function InsertByStart(rs: seq<Range>, r: Range): seq<Range> {
    if rs == [] || rs[|rs| - 1].slpn <= r.slpn then rs + [r]
    else InsertByStart(rs[..|rs| - 1], r) + [rs[|rs| - 1]]
  }

  lemma {:induction false} InsertKeepsOrder(rs: seq<Range>, r: Range)
    requires Sorted(rs)
    ensures Sorted(InsertByStart(rs, r))
    decreases |rs|
  {
    if rs != [] && rs[|rs| - 1].slpn > r.slpn {
      var n := |rs| - 1;
      InsertKeepsOrder(rs[..n], r);
      InsertMembers(rs[..n], r);
      assert forall x :: x in InsertByStart(rs[..n], r) ==> x.slpn <= rs[n].slpn;
    }
  }

  lemma {:induction false} SortIsSorted(rs: seq<Range>)
    ensures Sorted(SortByStart(rs))
    decreases |rs|
  {
    if rs != [] {
      SortIsSorted(rs[..|rs| - 1]);
      InsertKeepsOrder(SortByStart(rs[..|rs| - 1]), rs[|rs| - 1]);
    }
  }

  lemma {:induction false} SortMembers(rs: seq<Range>)
    ensures forall x :: x in SortByStart(rs) <==> x in rs
    decreases |rs|
  {
    if rs != [] {
      SortMembers(rs[..|rs| - 1]);
      InsertMembers(SortByStart(rs[..|rs| - 1]), rs[|rs| - 1]);
      assert rs == rs[..|rs| - 1] + [rs[|rs| - 1]];
    }
  }

  lemma InsertMembers(rs: seq<Range>, r: Range)
    ensures forall x :: x in InsertByStart(rs, r) <==> x in rs || x == r
  {
  }

  lemma DisjointSnoc(rs: seq<Range>, r: Range, total: nat)
    requires Disjoint(rs, total) && 0 < r.nlp && r.End() <= total && forall x :: x in rs ==> Apart(x, r)
    ensures Disjoint(rs + [r], total)
  {
  }

  lemma DisjointFront(rs: seq<Range>, total: nat)
    requires Disjoint(rs, total) && rs != []
    ensures var n := |rs| - 1;
            && Disjoint(rs[..n], total) && 0 < rs[n].nlp && rs[n].End() <= total
            && forall x :: x in rs[..n] ==> Apart(x, rs[n])
  {
  }

  lemma {:induction false} InsertKeepsDisjoint(rs: seq<Range>, r: Range, total: nat)
    requires Disjoint(rs, total) && 0 < r.nlp && r.End() <= total && forall x :: x in rs ==> Apart(x, r)
    ensures Disjoint(InsertByStart(rs, r), total)
    decreases |rs|
  {
    hide Disjoint;
    if rs == [] || rs[|rs| - 1].slpn <= r.slpn {
      DisjointSnoc(rs, r, total);
    } else {
      var n := |rs| - 1;
      DisjointFront(rs, total);
      InsertKeepsDisjoint(rs[..n], r, total);
      InsertMembers(rs[..n], r);
      assert Apart(rs[n], r);
      DisjointSnoc(InsertByStart(rs[..n], r), rs[n], total);
    }
  }

  lemma {:induction false} SortKeepsDisjoint(rs: seq<Range>, total: nat)
    requires Disjoint(rs, total)
    ensures Disjoint(SortByStart(rs), total)
    decreases |rs|
  {
    if rs != [] {
      hide Disjoint, Apart;
      DisjointFront(rs, total);
      SortKeepsDisjoint(rs[..|rs| - 1], total);
      SortMembers(rs[..|rs| - 1]);
      InsertKeepsDisjoint(SortByStart(rs[..|rs| - 1]), rs[|rs| - 1], total);
    }
  }

  // ----- the inverted list ----------------------------------------------------------------------------------------

  ghost predicate Allocated(rs: seq<Range>, x: nat) {
    exists i :: 0 <= i < |rs| && rs[i].Has(x)
  }

  /** All n pages from x on are free. */
  ghost predicate FreeRun(rs: seq<Range>, total: nat, x: nat, n: nat) {
    x + n <= total && forall y :: x <= y < x + n ==> !Allocated(rs, y)
  }

  predicate Stacked(rs: seq<Range>, total: nat) {
    && (forall i, j :: 0 <= i < j < |rs| ==> rs[i].End() <= rs[j].slpn)
    && forall i :: 0 <= i < |rs| ==> 0 < rs[i].nlp && rs[i].End() <= total
  }

  lemma SortStacks(rs: seq<Range>, total: nat)
    requires Disjoint(rs, total)
    ensures Stacked(SortByStart(rs), total)
  {
    SortIsSorted(rs);
    SortKeepsDisjoint(rs, total);
    var s := SortByStart(rs);
    forall i, j | 0 <= i < j < |s|
      ensures s[i].End() <= s[j].slpn
    {
      assert Apart(s[i], s[j]) && s[i].slpn <= s[j].slpn;
    }
  }

  /** The free range before the k-th allocated one, or after the last. */
  function Gap(rs: seq<Range>, total: nat, k: nat): Range
    requires Stacked(rs, total) && k <= |rs|
  {
    var from := if k == 0 then 0 else rs[k - 1].End();
    var to := if k == |rs| then total else rs[k].slpn;
    Range(from, to - from)
  }

  /** All free ranges, as the inverting loop leaves them. */
  function Gaps(rs: seq<Range>, total: nat): (gs: seq<Range>)
    requires Stacked(rs, total)
    ensures |gs| == |rs| + 1 && forall k :: 0 <= k <= |rs| ==> gs[k] == Gap(rs, total, k)
  {
    seq(|rs| + 1, k requires 0 <= k < |rs| + 1 => Gap(rs, total, k))
  }

  /** The first allocated range that starts after x. */
  function Above(rs: seq<Range>, x: nat, i: nat): (k: nat)
    requires i <= |rs|
    ensures i <= k <= |rs| && (forall j :: i <= j < k ==> rs[j].slpn <= x) && (k < |rs| ==> x < rs[k].slpn)
    decreases |rs| - i
  {
    if i == |rs| || x < rs[i].slpn then i else Above(rs, x, i + 1)
  }

  /** The free ranges are exactly the complement: a run of pages is free if and only if one of them holds it. */
  lemma GapsAreTheComplement(rs: seq<Range>, total: nat, x: nat, n: nat)
    requires Stacked(rs, total) && 0 < n
    ensures var gs := Gaps(rs, total);
            FreeRun(rs, total, x, n) <==> exists k :: 0 <= k < |gs| && gs[k].slpn <= x && x + n <= gs[k].End()
  {
    var gs := Gaps(rs, total);
    if FreeRun(rs, total, x, n) {
      var k := Above(rs, x, 0);
      if k > 0 {
        assert !Allocated(rs, x);
        assert !rs[k - 1].Has(x);
      }
      if k < |rs| && rs[k].slpn < x + n {
        assert rs[k].Has(rs[k].slpn);
        assert Allocated(rs, rs[k].slpn);
      }
      assert gs[k].slpn <= x && x + n <= gs[k].End();
    } else {
      forall k | 0 <= k < |gs| && gs[k].slpn <= x && x + n <= gs[k].End()
        ensures false
      {
        GapIsFree(rs, total, k, x, n);
      }
    }
  }

  lemma GapIsFree(rs: seq<Range>, total: nat, k: nat, x: nat, n: nat)
    requires Stacked(rs, total) && k <= |rs|
    requires Gap(rs, total, k).slpn <= x && x + n <= Gap(rs, total, k).End()
    ensures FreeRun(rs, total, x, n)
  {
    forall y, i | x <= y < x + n && 0 <= i < |rs|
      ensures !rs[i].Has(y)
    {
      if i + 1 < k { assert rs[i].End() <= rs[k - 1].slpn; }
      if k < i { assert rs[k].End() <= rs[i].slpn; }
    }
    if k < |rs| { assert rs[k].End() <= total; }
  }

  /** The order of the allocated ranges does not matter to what is free. */
  lemma SortedAllocated(rs: seq<Range>, x: nat)
    ensures Allocated(SortByStart(rs), x) <==> Allocated(rs, x)
  {
    SortMembers(rs);
    var s := SortByStart(rs);
    if Allocated(rs, x) {
      var i :| 0 <= i < |rs| && rs[i].Has(x);
      assert rs[i] in s;
      var j :| 0 <= j < |s| && s[j] == rs[i];
      assert s[j].Has(x);
    }
    if Allocated(s, x) {
      var i :| 0 <= i < |s| && s[i].Has(x);
      assert s[i] in rs;
      var j :| 0 <= j < |rs| && rs[j] == s[i];
      assert rs[j].Has(x);
    }
  }

  /** A free run can be allocated without touching anyone. */
  lemma FreeRunIsApart(rs: seq<Range>, total: nat, r: Range)
    requires Disjoint(rs, total) && 0 < r.nlp && FreeRun(rs, total, r.slpn, r.nlp)
    ensures forall x :: x in rs ==> Apart(x, r)
  {
    forall i | 0 <= i < |rs|
      ensures Apart(rs[i], r)
    {
      assert !Allocated(rs, r.slpn);
      assert !rs[i].Has(r.slpn);
      assert rs[i].Has(rs[i].slpn);
      assert Allocated(rs, rs[i].slpn);
    }
  }

  /** First fit: the lowest free run of n pages, if there is one. */
  ghost predicate IsFirstFit(rs: seq<Range>, total: nat, n: nat, fit: Option<Range>) {
    match fit
    case Some(r) =>
      && r.nlp == n && FreeRun(rs, total, r.slpn, n)
      && forall x :: 0 <= x < r.slpn ==> !FreeRun(rs, total, x, n)
    case None => forall x :: 0 <= x <= total ==> !FreeRun(rs, total, x, n)
  }

  lemma FirstGapIsFirstFit(rs: seq<Range>, total: nat, n: nat, k: nat)
    requires Stacked(rs, total) && 0 < n && k <= |rs| + 1
    requires var gs := Gaps(rs, total); (forall j :: 0 <= j < k ==> gs[j].nlp < n) && (k <= |rs| ==> n <= gs[k].nlp)
    ensures var gs := Gaps(rs, total); IsFirstFit(rs, total, n, if k <= |rs| then Some(Range(gs[k].slpn, n)) else None)
  {
    var gs := Gaps(rs, total);
    forall x: nat | FreeRun(rs, total, x, n)
      ensures k <= |rs| && gs[k].slpn <= x
    {
      GapsAreTheComplement(rs, total, x, n);
      var j :| 0 <= j < |gs| && gs[j].slpn <= x && x + n <= gs[j].End();
      assert k <= j;
      if 0 < k < j { assert rs[k - 1].End() <= rs[j - 1].slpn; }
    }
    if k <= |rs| { GapIsFree(rs, total, k, gs[k].slpn, n); }
  }

  /** Sorting first changes nothing. */
  lemma FirstFitUnsorted(rs: seq<Range>, total: nat, n: nat, fit: Option<Range>)
    requires IsFirstFit(SortByStart(rs), total, n, fit)
    ensures IsFirstFit(rs, total, n, fit)
  {
    forall y: nat
      ensures Allocated(SortByStart(rs), y) <==> Allocated(rs, y)
    {
      SortedAllocated(rs, y);
    }
    forall x: nat
      ensures FreeRun(SortByStart(rs), total, x, n) <==> FreeRun(rs, total, x, n)
    {
    }
  }

  // ----- pages counted by create and destroy ----------------------------------------------------------------------

  function PagesAtCreate(size: nat, lbaSize: nat, pageSize: nat): nat
    requires 0 < pageSize
  {
    size / pageSize * lbaSize
  }

  function PagesAtDestroy(size: nat, lbaSize: nat, pageSize: nat): nat
    requires 0 < pageSize
  {
    size * lbaSize / pageSize
  }

  /** createNamespace and destroyNamespace count the same pages exactly if the remainder of the size, in
      bytes, is less than a page. */
  lemma AccountsMatchIff(size: nat, lbaSize: nat, pageSize: nat)
    requires 0 < pageSize
    ensures PagesAtCreate(size, lbaSize, pageSize) == PagesAtDestroy(size, lbaSize, pageSize) <==>
            (size % pageSize) * lbaSize < pageSize
  {
    var q, r := size / pageSize, size % pageSize;
    DivMod(size, pageSize);
    Regroup(q, pageSize, r, lbaSize);
    AddMultiple(r * lbaSize, q * lbaSize, pageSize);
    DivideZero(r * lbaSize, pageSize);
  }

  /** 4104 blocks of 512 bytes with pages of 4096 bytes: 512 pages are added and 513 are taken away again. */
  lemma AccountsDrift()
    ensures PagesAtCreate(4104, 512, 4096) == 512 && PagesAtDestroy(4104, 512, 4096) == 513
  {
    Combine(4096, 1, 8);
    Combine(4096, 513, 0);
    assert 4104 * 512 == 513 * 4096;
  }

  lemma DivideZero(x: nat, n: nat)
    requires 0 < n
    ensures x / n == 0 <==> x < n
  {
    DivMod(x, n);
    if x < n { Combine(n, 0, x); }
  }

  lemma Regroup(q: nat, p: nat, r: nat, b: nat)
    ensures (q * p + r) * b == (q * b) * p + r * b
  {
    assert (q * p + r) * b == (q * p) * b + r * b;
    assert (q * p) * b == (q * b) * p;
  }
}
