/** What the allocation order means: every coordinate of a page in closed form, and which one moves first. */
module FlashCoordinates {
  import opened Arithmetic
  import opened FlashAddress
  import opened FlashConversion

  /** Dividing twice. */
  lemma DivDiv(t: nat, n: nat, p: nat)
    requires 0 < n && 0 < p
    ensures 0 < p * n && t / (p * n) == t / n / p
  {
    Positive(p, n);
    var q := t / n;
    DivMod(t, n);
    DivMod(q, p);
    var rest := q % p * n + t % n;
    Below(q % p, t % n, n, p);
    Associate(q / p, p, n);
    assert q * n == (q / p * p) * n + q % p * n;
    Combine(p * n, q / p, rest);
  }

  // ----- digits -----------------------------------------------------------------------------------------------------

  ghost predicate DigitsFit(g: Geometry, ds: seq<Dim>, a: Address) {
    Sized(g, ds) && forall d :: d in ds ==> a.Get(d) < g.Size(d)
  }

  /** The number of a superblock, divided by the sizes before dimension i, has that coordinate as its last digit. */
  lemma {:induction false} AlongDigit(g: Geometry, ds: seq<Dim>, a: Address, i: nat)
    requires DigitsFit(g, ds, a) && i <= |ds|
    ensures 0 < Product(g, ds[..i])
    ensures i == |ds| ==> Along(g, ds, a) / Product(g, ds[..i]) == a.block
    ensures i < |ds| ==> 0 < g.Size(ds[i]) && Along(g, ds, a) / Product(g, ds[..i]) % g.Size(ds[i]) == a.Get(ds[i])
    decreases |ds|
  {
    ProductPositive(g, ds[..i]);
    if ds != [] {
      var n := g.Size(ds[0]);
      var x := Along(g, ds[1..], a);
      Combine(n, x, a.Get(ds[0]));
      if i > 0 {
        AlongDigit(g, ds[1..], a, i - 1);
        ProductHead(g, ds[..i]);
        assert ds[..i][1..] == ds[1..][..i - 1];
        DivDiv(Along(g, ds, a), n, Product(g, ds[1..][..i - 1]));
      }
    }
  }

  /** Taken from the front, unit numbers are built like superblock numbers. */
  lemma {:induction false} AcrossHead(g: Geometry, ds: seq<Dim>, a: Address)
    requires ds != []
    ensures Across(g, ds, a) == Across(g, ds[1..], a) * g.Size(ds[0]) + a.Get(ds[0])
    decreases |ds|
  {
    var n := |ds| - 1;
    if n == 0 {
      assert ds[..0] == [] && ds[1..] == [];
    } else {
      var front, mid, x := ds[..n], ds[1..n], a.Get(ds[n]);
      AcrossHead(g, front, a);
      assert front[1..] == mid && ds[1..][..n - 1] == mid && ds[1..][n - 1] == ds[n];
      ProductHead(g, front);
      Expand(Across(g, mid, a), x, Product(g, mid), g.Size(ds[0]));
    }
  }

  lemma Expand(low: nat, x: nat, p: nat, n: nat)
    ensures (low + x * p) * n == low * n + x * (p * n)
  {
    Associate(x, p, n);
  }

  lemma {:induction false} AcrossDigit(g: Geometry, ds: seq<Dim>, a: Address, i: nat)
    requires DigitsFit(g, ds, a) && i < |ds|
    ensures 0 < Product(g, ds[..i]) && 0 < g.Size(ds[i])
    ensures Across(g, ds, a) / Product(g, ds[..i]) % g.Size(ds[i]) == a.Get(ds[i])
    decreases |ds|
  {
    ProductPositive(g, ds[..i]);
    var n := g.Size(ds[0]);
    AcrossHead(g, ds, a);
    Combine(n, Across(g, ds[1..], a), a.Get(ds[0]));
    if i > 0 {
      AcrossDigit(g, ds[1..], a, i - 1);
      ProductHead(g, ds[..i]);
      assert ds[..i][1..] == ds[1..][..i - 1];
      DivDiv(Across(g, ds, a), n, Product(g, ds[1..][..i - 1]));
    }
  }

  // ----- coordinates ------------------------------------------------------------------------------------------------

  /** The dimensions selected from a front part of the order are the front part of all that are selected. */
  lemma {:induction false} SelectFront(ds: seq<Dim>, g: Geometry, across: bool, i: nat)
    requires i < |ds|
    ensures var all, front := Select(ds, g, across), Select(ds[..i], g, across);
            && |front| <= |all| && all[..|front|] == front
            && ((if across then g.Across(ds[i]) else g.Along(ds[i])) ==> |front| < |all| && all[|front|] == ds[i])
    decreases |ds|
  {
    var n := |ds| - 1;
    if i < n {
      SelectFront(ds[..n], g, across, i);
      assert ds[..n][..i] == ds[..i];
    }
  }

  /** The product of the sizes of the dimensions in front of position i that number superblocks, or units. */
  function SizeBefore(g: Geometry, i: nat, across: bool): nat
    requires i <= |g.order|
  {
    Product(g, Select(g.order[..i], g, across))
  }

  /** The page of unit u of superblock n: along a dimension outside the mask its coordinate is a digit of n, along one
      in the mask a digit of u, and the digits come in the allocation order. What is left of n is the block. */
  lemma CoordinatesAre(g: Geometry, n: nat, u: nat, i: nat)
    requires g.Valid() && n < SuperBlocks(g) && u < PagesInSuperPage(g) && i < |g.order|
    ensures Sized(g, Serial(g)) && Sized(g, Parallel(g))
    ensures 0 < SizeBefore(g, i, false) && 0 < SizeBefore(g, i, true) && 0 < g.Size(g.order[i])
    ensures 0 < SizeBefore(g, |g.order|, false)
    ensures var d, a := g.order[i], Locate(g, n, u);
            && (g.Along(d) ==> a.Get(d) == n / SizeBefore(g, i, false) % g.Size(d))
            && (g.Across(d) ==> a.Get(d) == u / SizeBefore(g, i, true) % g.Size(d))
            && a.block == n / SizeBefore(g, |g.order|, false)
  {
    hide Product, Select, Along, Across, Locate;
    OrderFacts(g);
    LocateThenFind(g, n, u);
    var a := Locate(g, n, u);
    InRangeIff(g, a);
    SelectFront(g.order, g, false, i);
    SelectFront(g.order, g, true, i);
    ProductPositive(g, Select(g.order[..i], g, false));
    ProductPositive(g, Select(g.order[..i], g, true));
    var d := g.order[i];
    if g.Along(d) { AlongDigit(g, Serial(g), a, |Select(g.order[..i], g, false)|); }
    if g.Across(d) { AcrossDigit(g, Parallel(g), a, |Select(g.order[..i], g, true)|); }
    AlongDigit(g, Serial(g), a, |Serial(g)|);
    assert g.order[..|g.order|] == g.order && Serial(g)[..|Serial(g)|] == Serial(g);
  }

  // ----- which coordinate moves first ------------------------------------------------------------------------------

  /** Dimension d is in the mask, or outside it; planes that work together do not count. */
  predicate Counts(g: Geometry, d: Dim, across: bool) {
    (d in g.mask) == across && !(g.multiPlane && d == Plane)
  }

  /** d is the first such dimension of the order. */
  ghost predicate IsFirst(g: Geometry, d: Dim, across: bool) {
    exists i :: && 0 <= i < |g.order| && g.order[i] == d && Counts(g, d, across)
                && forall j :: 0 <= j < i ==> !Counts(g, g.order[j], across)
  }

  lemma FirstIsSelected(g: Geometry, d: Dim, across: bool)
    requires IsFirst(g, d, across)
    ensures var ds := Select(g.order, g, across); ds != [] && ds[0] == d
  {
    var i :| && 0 <= i < |g.order| && g.order[i] == d && Counts(g, d, across)
             && forall j :: 0 <= j < i ==> !Counts(g, g.order[j], across);
    SelectFront(g.order, g, across, i);
    NoneSelected(g.order[..i], g, across);
  }

  lemma {:induction false} NoneSelected(ds: seq<Dim>, g: Geometry, across: bool)
    requires forall j :: 0 <= j < |ds| ==> !Counts(g, ds[j], across)
    ensures Select(ds, g, across) == []
    decreases |ds|
  {
    if ds != [] { NoneSelected(ds[..|ds| - 1], g, across); }
  }

  lemma {:induction false} AcrossAgrees(g: Geometry, ds: seq<Dim>, a: Address, b: Address)
    requires a.block == b.block && forall d :: d in ds ==> a.Get(d) == b.Get(d)
    ensures Across(g, ds, a) == Across(g, ds, b)
    decreases |ds|
  {
    if ds != [] { AcrossAgrees(g, ds[..|ds| - 1], a, b); }
  }

  /** The next superblock is one step further along the first dimension outside the mask, as long as there is room. */
  lemma NextSuperBlock(g: Geometry, n: nat, u: nat, d: Dim)
    requires g.Valid() && n < SuperBlocks(g) && u < PagesInSuperPage(g) && IsFirst(g, d, false)
    ensures Sized(g, Serial(g)) && Sized(g, Parallel(g))
    ensures var a := Locate(g, n, u);
            a.Get(d) + 1 < g.Size(d) ==> n + 1 < SuperBlocks(g) && Locate(g, n + 1, u) == a.With(d, a.Get(d) + 1)
  {
    hide Product, Select, Locate, SuperBlocks, PagesInSuperPage;
    OrderFacts(g);
    FirstIsSelected(g, d, false);
    SelectDistinct(g.order, g, false);
    LocateThenFind(g, n, u);
    hide IsFirst;
    var a := Locate(g, n, u);
    if a.Get(d) + 1 < g.Size(d) {
      var b := a.With(d, a.Get(d) + 1);
      InRangeIff(g, a);
      InRangeIff(g, b);
      var ds := Serial(g);
      AlongAgrees(g, ds[1..], a, b);
      AcrossAgrees(g, Parallel(g), a, b);
      FindThenLocate(g, b);
    }
  }

  /** The next unit is one step further along the first dimension in the mask. */
  lemma NextUnit(g: Geometry, n: nat, u: nat, d: Dim)
    requires g.Valid() && n < SuperBlocks(g) && u < PagesInSuperPage(g) && IsFirst(g, d, true)
    ensures Sized(g, Serial(g)) && Sized(g, Parallel(g))
    ensures var a := Locate(g, n, u);
            a.Get(d) + 1 < g.Size(d) ==> u + 1 < PagesInSuperPage(g) && Locate(g, n, u + 1) == a.With(d, a.Get(d) + 1)
  {
    hide Product, Select, Locate, SuperBlocks, PagesInSuperPage;
    OrderFacts(g);
    FirstIsSelected(g, d, true);
    SelectDistinct(g.order, g, true);
    LocateThenFind(g, n, u);
    hide IsFirst;
    var a := Locate(g, n, u);
    if a.Get(d) + 1 < g.Size(d) {
      var b := a.With(d, a.Get(d) + 1);
      InRangeIff(g, a);
      InRangeIff(g, b);
      var ds := Parallel(g);
      AcrossHead(g, ds, a);
      AcrossHead(g, ds, b);
      AcrossAgrees(g, ds[1..], a, b);
      AlongAgrees(g, Serial(g), a, b);
      FindThenLocate(g, b);
    }
  }

  // ----- the default order ------------------------------------------------------------------------------------------

  lemma DefaultSizes(g: Geometry, across: bool)
    requires g.order == [Channel, Package, Die, Plane]
    ensures var c, p := Factor(g, Channel, across), Factor(g, Package, across);
            var d, l := Factor(g, Die, across), Factor(g, Plane, across);
            && SizeBefore(g, 0, across) == 1 && SizeBefore(g, 1, across) == c && SizeBefore(g, 2, across) == c * p
            && SizeBefore(g, 3, across) == c * p * d && SizeBefore(g, 4, across) == c * p * d * l
  {
    hide Product, Select, Factor;
    var o := g.order;
    assert o[..0] == [] && o[..1] == [Channel] && o[..2] == [Channel, Package] && o[..3] == [Channel, Package, Die];
    assert o[..4] == o && o[..4][..3] == o[..3] && o[..3][..2] == o[..2] && o[..2][..1] == o[..1] && o[..1][..0] == [];
    SelectedFactors(g, o[..0], across);
    SelectedFactors(g, o[..1], across);
    SelectedFactors(g, o[..2], across);
    SelectedFactors(g, o[..3], across);
    SelectedFactors(g, o[..4], across);
  }

  /** Channel, package, die and plane in this order, whatever the mask, with all fields written out. */
  lemma DefaultOrder(g: Geometry, n: nat, u: nat)
    requires g.Valid() && g.order == [Channel, Package, Die, Plane] && n < SuperBlocks(g) && u < PagesInSuperPage(g)
    ensures Sized(g, Serial(g)) && Sized(g, Parallel(g))
    ensures var a := Locate(g, n, u);
            var c, p, d := Part(Channel !in g.mask, g.channels), Part(Package !in g.mask, g.packages),
                           Part(Die !in g.mask, g.dies);
            var l := Part(Plane !in g.mask && !g.multiPlane, g.planes);
            var c', p', d' := Part(Channel in g.mask, g.channels), Part(Package in g.mask, g.packages),
                              Part(Die in g.mask, g.dies);
            && 0 < c * p && 0 < c' * p' && 0 < c * p * d && 0 < c' * p' * d' && 0 < c * p * d * l
            && a.channel == (if Channel in g.mask then u else n) % g.channels
            && a.package == (if Package in g.mask then u / c' else n / c) % g.packages
            && a.die == (if Die in g.mask then u / (c' * p') else n / (c * p)) % g.dies
            && (!g.multiPlane ==>
                  a.plane == (if Plane in g.mask then u / (c' * p' * d') else n / (c * p * d)) % g.planes)
            && a.block == n / (c * p * d * l)
  {
    hide Product, Select, Locate, SuperBlocks, PagesInSuperPage, SizeBefore;
    CoordinatesAre(g, n, u, 0);
    CoordinatesAre(g, n, u, 1);
    CoordinatesAre(g, n, u, 2);
    CoordinatesAre(g, n, u, 3);
    DefaultSizes(g, false);
    DefaultSizes(g, true);
    PartsAreFactors(g);
    hide Factor;
  }
}
