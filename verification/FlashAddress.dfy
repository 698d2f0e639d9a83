/** Where a unit of a superblock is: the mixed-radix addressing of pal/pal_old.cc. */
module FlashAddress {
  import opened Arithmetic

  datatype Dim = Channel | Package | Die | Plane

  const AllDims: seq<Dim> := [Channel, Package, Die, Plane]

  /** Sizes of the flash array, the page allocation order, the dimensions a superblock spans, and whether
      the planes of a die always work together. */
  datatype Geometry = Geometry(
    channels: nat, packages: nat, dies: nat, planes: nat, blocks: nat, pageSize: nat,
    order: seq<Dim>, mask: set<Dim>, multiPlane: bool)
  {
    ghost predicate Valid() {
      && 0 < channels && 0 < packages && 0 < dies && 0 < planes && 0 < pageSize
      && multiset(order) == multiset(AllDims)
      && (multiPlane ==> Plane in mask)
    }

    function Size(d: Dim): nat {
      match d
      case Channel => channels
      case Package => packages
      case Die => dies
      case Plane => planes
    }

    /** Spread over the units of a superblock. */
    predicate Across(d: Dim) {
      d in mask && !(multiPlane && d == Plane)
    }

    /** Part of the superblock's number. */
    predicate Along(d: Dim) {
      d !in mask && !(multiPlane && d == Plane)
    }
  }

  datatype Address = Address(channel: nat, package: nat, die: nat, plane: nat, block: nat) {
    function Get(d: Dim): nat {
      match d
      case Channel => channel
      case Package => package
      case Die => die
      case Plane => plane
    }

    function With(d: Dim, n: nat): (a: Address)
      ensures a.Get(d) == n && a.block == block && forall e :: e != d ==> a.Get(e) == Get(e)
    {
      match d
      case Channel => this.(channel := n)
      case Package => this.(package := n)
      case Die => this.(die := n)
      case Plane => this.(plane := n)
    }
  }

  const Zero: Address := Address(0, 0, 0, 0, 0)

  function Select(ds: seq<Dim>, g: Geometry, across: bool): (r: seq<Dim>)
    ensures forall d :: d in r <==> d in ds && (if across then g.Across(d) else g.Along(d))
  {
    if ds == [] then []
    else
      var d := ds[|ds| - 1];
      Select(ds[..|ds| - 1], g, across) + if (if across then g.Across(d) else g.Along(d)) then [d] else []
  }

  ghost predicate Distinct(ds: seq<Dim>) {
    forall i, j :: 0 <= i < j < |ds| ==> ds[i] != ds[j]
  }

  ghost predicate Sized(g: Geometry, ds: seq<Dim>) {
    forall d :: d in ds ==> 0 < g.Size(d)
  }

  /** The product of the sizes. */
  function Product(g: Geometry, ds: seq<Dim>): nat {
    if ds == [] then 1 else Product(g, ds[..|ds| - 1]) * g.Size(ds[|ds| - 1])
  }

  lemma {:induction false} ProductPositive(g: Geometry, ds: seq<Dim>)
    requires Sized(g, ds)
    ensures 0 < Product(g, ds)
  {
    if ds != [] {
      ProductPositive(g, ds[..|ds| - 1]);
      Positive(Product(g, ds[..|ds| - 1]), g.Size(ds[|ds| - 1]));
    }
  }

  lemma Swap3(a: nat, b: nat, c: nat)
    ensures (a * b) * c == (a * c) * b
  {
  }

  /** The first factor can be taken out as well as the last. */
  lemma {:induction false} ProductHead(g: Geometry, ds: seq<Dim>)
    requires ds != []
    ensures Product(g, ds) == Product(g, ds[1..]) * g.Size(ds[0])
    decreases |ds|
  {
    var n := |ds| - 1;
    if n > 0 {
      ProductHead(g, ds[..n]);
      assert ds[1..][..n - 1] == ds[..n][1..];
      Swap3(Product(g, ds[1..n]), g.Size(ds[0]), g.Size(ds[n]));
      assert ds[..n][1..] == ds[1..n];
    }
  }

  // ----- the number of a superblock --------------------------------------------------------------------------

  /** The first loop: a remainder per dimension, and what is left is the block. */
  function Strip(g: Geometry, ds: seq<Dim>, a: Address, tmp: nat): Address
    requires Sized(g, ds)
  {
    if ds == [] then a.(block := tmp)
    else Strip(g, ds[1..], a.With(ds[0], tmp % g.Size(ds[0])), tmp / g.Size(ds[0]))
  }

  function Along(g: Geometry, ds: seq<Dim>, a: Address): nat {
    if ds == [] then a.block else Along(g, ds[1..], a) * g.Size(ds[0]) + a.Get(ds[0])
  }

  lemma {:induction false} StripKeeps(g: Geometry, ds: seq<Dim>, a: Address, tmp: nat, e: Dim)
    requires Sized(g, ds) && e !in ds
    ensures Strip(g, ds, a, tmp).Get(e) == a.Get(e)
    decreases |ds|
  {
    if ds != [] { StripKeeps(g, ds[1..], a.With(ds[0], tmp % g.Size(ds[0])), tmp / g.Size(ds[0]), e); }
  }

  /** The number can be read off the address. */
  lemma {:induction false} StripThenAlong(g: Geometry, ds: seq<Dim>, a: Address, tmp: nat)
    requires Sized(g, ds) && Distinct(ds)
    ensures var r := Strip(g, ds, a, tmp);
            Along(g, ds, r) == tmp && forall d :: d in ds ==> r.Get(d) < g.Size(d)
    decreases |ds|
  {
    if ds != [] {
      var n := g.Size(ds[0]);
      var b := a.With(ds[0], tmp % n);
      StripThenAlong(g, ds[1..], b, tmp / n);
      StripKeeps(g, ds[1..], b, tmp / n, ds[0]);
      DivMod(tmp, n);
    }
  }

  /** And the address can be rebuilt from the number. */
  lemma {:induction false} AlongThenStrip(g: Geometry, ds: seq<Dim>, a: Address, b: Address, e: Dim)
    requires Sized(g, ds) && Distinct(ds) && (forall d :: d in ds ==> a.Get(d) < g.Size(d))
    ensures var r := Strip(g, ds, b, Along(g, ds, a));
            r.block == a.block && r.Get(e) == if e in ds then a.Get(e) else b.Get(e)
    decreases |ds|
  {
    if ds != [] {
      var n := g.Size(ds[0]);
      Combine(n, Along(g, ds[1..], a), a.Get(ds[0]));
      var b' := b.With(ds[0], a.Get(ds[0]));
      AlongThenStrip(g, ds[1..], a, b', e);
      assert e in ds <==> e == ds[0] || e in ds[1..];
    }
  }

  lemma {:induction false} AlongBound(g: Geometry, ds: seq<Dim>, a: Address, blocks: nat)
    requires Sized(g, ds) && forall d :: d in ds ==> a.Get(d) < g.Size(d)
    ensures Along(g, ds, a) < blocks * Product(g, ds) <==> a.block < blocks
    decreases |ds|
  {
    if ds != [] {
      var n := g.Size(ds[0]);
      AlongBound(g, ds[1..], a, blocks);
      ProductHead(g, ds);
      Associate(blocks, Product(g, ds[1..]), n);
      BelowIff(Along(g, ds[1..], a), a.Get(ds[0]), n, blocks * Product(g, ds[1..]));
    }
  }

  // ----- the units of a superblock -----------------------------------------------------------------------------

  /** The nested loops give unit u these coordinates; the first dimension varies fastest. */
  function Place(g: Geometry, ds: seq<Dim>, a: Address, u: nat): Address
    requires Sized(g, ds)
  {
    if ds == [] then a
    else
      var n := |ds| - 1;
      ProductPositive(g, ds[..n]);
      Place(g, ds[..n], a.With(ds[n], u / Product(g, ds[..n])), u % Product(g, ds[..n]))
  }

  function Across(g: Geometry, ds: seq<Dim>, a: Address): nat {
    if ds == [] then 0
    else Across(g, ds[..|ds| - 1], a) + a.Get(ds[|ds| - 1]) * Product(g, ds[..|ds| - 1])
  }

  lemma {:induction false} PlaceKeeps(g: Geometry, ds: seq<Dim>, a: Address, u: nat, e: Dim)
    requires Sized(g, ds) && e !in ds
    ensures Place(g, ds, a, u).Get(e) == a.Get(e) && Place(g, ds, a, u).block == a.block
    decreases |ds|
  {
    if ds != [] {
      var n := |ds| - 1;
      ProductPositive(g, ds[..n]);
      PlaceKeeps(g, ds[..n], a.With(ds[n], u / Product(g, ds[..n])), u % Product(g, ds[..n]), e);
    }
  }

  lemma {:induction false} PlaceThenAcross(g: Geometry, ds: seq<Dim>, a: Address, u: nat)
    requires Sized(g, ds) && Distinct(ds) && u < Product(g, ds)
    ensures var r := Place(g, ds, a, u);
            Across(g, ds, r) == u && r.block == a.block && forall d :: d in ds ==> r.Get(d) < g.Size(d)
    decreases |ds|
  {
    if ds != [] {
      var n := |ds| - 1;
      var p := Product(g, ds[..n]);
      ProductPositive(g, ds[..n]);
      DivMod(u, p);
      Swap2(p, g.Size(ds[n]));
      QuotientBelow(u, p, g.Size(ds[n]));
      var b := a.With(ds[n], u / p);
      PlaceThenAcross(g, ds[..n], b, u % p);
      PlaceKeeps(g, ds[..n], b, u % p, ds[n]);
    }
  }

  lemma Swap2(a: nat, b: nat)
    ensures a * b == b * a
  {
  }

  lemma {:induction false} AcrossBound(g: Geometry, ds: seq<Dim>, a: Address)
    requires Sized(g, ds) && forall d :: d in ds ==> a.Get(d) < g.Size(d)
    ensures Across(g, ds, a) < Product(g, ds)
    decreases |ds|
  {
    if ds != [] {
      var n := |ds| - 1;
      AcrossBound(g, ds[..n], a);
      Below(a.Get(ds[n]), Across(g, ds[..n], a), Product(g, ds[..n]), g.Size(ds[n]));
      Swap2(Product(g, ds[..n]), g.Size(ds[n]));
    }
  }

  lemma {:induction false} AcrossThenPlace(g: Geometry, ds: seq<Dim>, a: Address, b: Address, e: Dim)
    requires Sized(g, ds) && Distinct(ds) && (forall d :: d in ds ==> a.Get(d) < g.Size(d))
    ensures var r := Place(g, ds, b, Across(g, ds, a));
            r.block == b.block && r.Get(e) == if e in ds then a.Get(e) else b.Get(e)
    decreases |ds|
  {
    if ds != [] {
      var n := |ds| - 1;
      var p := Product(g, ds[..n]);
      ProductPositive(g, ds[..n]);
      AcrossBound(g, ds[..n], a);
      Combine(p, a.Get(ds[n]), Across(g, ds[..n], a));
      var b' := b.With(ds[n], a.Get(ds[n]));
      AcrossThenPlace(g, ds[..n], a, b', e);
      assert e in ds <==> e == ds[n] || e in ds[..n];
    }
  }

  // ----- the whole map -----------------------------------------------------------------------------------------

  function Serial(g: Geometry): seq<Dim> {
    Select(g.order, g, false)
  }

  function Parallel(g: Geometry): seq<Dim> {
    Select(g.order, g, true)
  }

  lemma EachDimOnce(d: Dim)
    ensures multiset(AllDims)[d] == 1
  {
    assert multiset(AllDims) == multiset{Channel, Package, Die, Plane};
    match d case Channel => case Package => case Die => case Plane =>
  }

  lemma Twice(ds: seq<Dim>, i: nat, j: nat)
    requires i < j < |ds| && ds[i] == ds[j]
    ensures multiset(ds)[ds[i]] >= 2
  {
    assert ds == ds[..j] + ds[j..];
    assert ds[i] in ds[..j] && ds[j] in ds[j..];
  }

  lemma OrderFacts(g: Geometry)
    requires g.Valid()
    ensures Distinct(g.order) && (forall d :: d in g.order) && Sized(g, g.order)
    ensures Sized(g, Serial(g)) && Sized(g, Parallel(g))
  {
    forall i, j | 0 <= i < j < |g.order|
      ensures g.order[i] != g.order[j]
    {
      EachDimOnce(g.order[i]);
      if g.order[i] == g.order[j] { Twice(g.order, i, j); }
    }
    forall d: Dim
      ensures d in g.order
    {
      EachDimOnce(d);
      assert d in multiset(g.order);
    }
  }

  lemma {:induction false} SelectDistinct(ds: seq<Dim>, g: Geometry, across: bool)
    requires Distinct(ds)
    ensures Distinct(Select(ds, g, across))
    decreases |ds|
  {
    if ds != [] { SelectDistinct(ds[..|ds| - 1], g, across); }
  }

  /** Superblocks, and pages in a superpage. */
  function SuperBlocks(g: Geometry): nat {
    g.blocks * Product(g, Serial(g))
  }

  function PagesInSuperPage(g: Geometry): nat {
    Product(g, Parallel(g))
  }

  /** The page of unit u of superblock n. */
  function Locate(g: Geometry, n: nat, u: nat): Address
    requires Sized(g, Serial(g)) && Sized(g, Parallel(g))
  {
    Place(g, Parallel(g), Strip(g, Serial(g), Zero, n), u)
  }

  function SuperBlockOf(g: Geometry, a: Address): nat {
    Along(g, Serial(g), a)
  }

  function UnitOf(g: Geometry, a: Address): nat {
    Across(g, Parallel(g), a)
  }

  /** Inside the flash array; with multi-plane operation the plane is not used. */
  predicate InRange(g: Geometry, a: Address) {
    && a.channel < g.channels && a.package < g.packages && a.die < g.dies
    && (if g.multiPlane then a.plane == 0 else a.plane < g.planes)
    && a.block < g.blocks
  }

  /** The same, one dimension at a time. */
  lemma InRangeIff(g: Geometry, a: Address)
    ensures InRange(g, a) <==>
            && a.block < g.blocks
            && (forall d :: g.Across(d) || g.Along(d) ==> a.Get(d) < g.Size(d))
            && (g.multiPlane ==> a.plane == 0)
  {
    if forall d :: g.Across(d) || g.Along(d) ==> a.Get(d) < g.Size(d) {
      assert a.Get(Channel) < g.Size(Channel) && a.Get(Package) < g.Size(Package) && a.Get(Die) < g.Size(Die);
      assert !g.multiPlane ==> a.Get(Plane) < g.Size(Plane);
    }
  }

  lemma {:induction false} AlongAgrees(g: Geometry, ds: seq<Dim>, a: Address, b: Address)
    requires a.block == b.block && forall d :: d in ds ==> a.Get(d) == b.Get(d)
    ensures Along(g, ds, a) == Along(g, ds, b)
    decreases |ds|
  {
    if ds != [] { AlongAgrees(g, ds[1..], a, b); }
  }

  /** Every superblock and unit has a page in range, from which both can be read off again. */
  lemma LocateThenFind(g: Geometry, n: nat, u: nat)
    requires g.Valid() && n < SuperBlocks(g) && u < PagesInSuperPage(g)
    ensures Sized(g, Serial(g)) && Sized(g, Parallel(g))
    ensures var a := Locate(g, n, u);
            InRange(g, a) && SuperBlockOf(g, a) == n && UnitOf(g, a) == u
  {
    hide Product, Strip, Place, Along, Across, Select;
    OrderFacts(g);
    SelectDistinct(g.order, g, false);
    SelectDistinct(g.order, g, true);
    var base := Strip(g, Serial(g), Zero, n);
    var a := Locate(g, n, u);
    StripThenAlong(g, Serial(g), Zero, n);
    PlaceThenAcross(g, Parallel(g), base, u);
    forall d | d !in Parallel(g)
      ensures a.Get(d) == base.Get(d)
    {
      PlaceKeeps(g, Parallel(g), base, u, d);
    }
    AlongAgrees(g, Serial(g), a, base);
    AlongBound(g, Serial(g), base, g.blocks);
    if g.multiPlane { StripKeeps(g, Serial(g), Zero, n, Plane); }
    InRangeIff(g, a);
  }

  /** And every page in range is the page of exactly that superblock and unit. */
  lemma FindThenLocate(g: Geometry, a: Address)
    requires g.Valid() && InRange(g, a)
    ensures Sized(g, Serial(g)) && Sized(g, Parallel(g))
    ensures SuperBlockOf(g, a) < SuperBlocks(g) && UnitOf(g, a) < PagesInSuperPage(g)
    ensures Locate(g, SuperBlockOf(g, a), UnitOf(g, a)) == a
  {
    hide Product, Strip, Place, Along, Across, Select;
    InRangeIff(g, a);
    OrderFacts(g);
    SelectDistinct(g.order, g, false);
    SelectDistinct(g.order, g, true);
    AlongBound(g, Serial(g), a, g.blocks);
    AcrossBound(g, Parallel(g), a);
    var base := Strip(g, Serial(g), Zero, SuperBlockOf(g, a));
    var r := Locate(g, SuperBlockOf(g, a), UnitOf(g, a));
    forall d: Dim
      ensures r.Get(d) == a.Get(d) && r.block == a.block
    {
      AlongThenStrip(g, Serial(g), a, Zero, d);
      AcrossThenPlace(g, Parallel(g), a, base, d);
    }
    assert r.Get(Channel) == a.Get(Channel) && r.Get(Package) == a.Get(Package);
    assert r.Get(Die) == a.Get(Die) && r.Get(Plane) == a.Get(Plane);
  }
}
