/** Geometry set-up of pal/pal.cc and pal/config.cc, and convertCPDPBP of pal/pal_old.cc. */
module FlashConversion {
  import opened Outcomes
  import opened Arithmetic
  import opened FlashAddress

  // ----- sizes (pal/pal.cc) --------------------------------------------------------------------------------------

  function Factor(g: Geometry, d: Dim, across: bool): nat {
    if (if across then g.Across(d) else g.Along(d)) then g.Size(d) else 1
  }

  /** The product of the factors, whatever the order. */
  function Factors(g: Geometry, ds: seq<Dim>, across: bool): nat {
    if ds == [] then 1 else Factors(g, ds[..|ds| - 1], across) * Factor(g, ds[|ds| - 1], across)
  }

  lemma {:induction false} SelectedFactors(g: Geometry, ds: seq<Dim>, across: bool)
    ensures Product(g, Select(ds, g, across)) == Factors(g, ds, across)
    decreases |ds|
  {
    if ds != [] {
      SelectedFactors(g, ds[..|ds| - 1], across);
      ProductNext(g, Select(ds[..|ds| - 1], g, across), ds[|ds| - 1]);
    }
  }

  lemma ProductNext(g: Geometry, rest: seq<Dim>, d: Dim)
    ensures Product(g, rest + [d]) == Product(g, rest) * g.Size(d) && rest + [] == rest
  {
    assert (rest + [d])[..|rest|] == rest;
  }

  lemma {:induction false} FactorsWithout(g: Geometry, ds: seq<Dim>, i: nat, across: bool)
    requires i < |ds|
    ensures Factors(g, ds, across) == Factors(g, ds[..i] + ds[i + 1..], across) * Factor(g, ds[i], across)
    decreases |ds|
  {
    var n := |ds| - 1;
    if i < n {
      FactorsWithout(g, ds[..n], i, across);
      var short := ds[..i] + ds[i + 1..];
      assert short[..|short| - 1] == ds[..n][..i] + ds[..n][i + 1..];
      Swap3(Factors(g, short[..|short| - 1], across), Factor(g, ds[i], across), Factor(g, ds[n], across));
    } else {
      assert ds[..i] + ds[i + 1..] == ds[..n];
    }
  }

  lemma Removed(ds: seq<Dim>, i: nat)
    requires i < |ds|
    ensures multiset(ds[..i] + ds[i + 1..]) == multiset(ds) - multiset{ds[i]}
  {
    assert ds == ds[..i] + [ds[i]] + ds[i + 1..];
  }

  lemma {:induction false} FactorsPermute(g: Geometry, ds: seq<Dim>, es: seq<Dim>, across: bool)
    requires multiset(ds) == multiset(es)
    ensures Factors(g, ds, across) == Factors(g, es, across)
    decreases |ds|
  {
    if ds == [] {
      assert |multiset(es)| == 0;
    } else {
      var n := |ds| - 1;
      assert ds == ds[..n] + [ds[n]];
      assert ds[n] in multiset(es);
      var i :| 0 <= i < |es| && es[i] == ds[n];
      Removed(ds, n);
      Removed(es, i);
      assert ds[..n] + ds[n + 1..] == ds[..n];
      FactorsPermute(g, ds[..n], es[..i] + es[i + 1..], across);
      FactorsWithout(g, es, i, across);
    }
  }

  lemma FourFactors(g: Geometry, across: bool)
    ensures Factors(g, AllDims, across) ==
            ((Factor(g, Channel, across) * Factor(g, Package, across)) * Factor(g, Die, across))
              * Factor(g, Plane, across)
  {
    var one, two, three := [Channel], [Channel, Package], [Channel, Package, Die];
    assert AllDims[..3] == three && three[..2] == two && two[..1] == one && one[..0] == [];
    assert Factors(g, [], across) == 1;
    assert Factors(g, one, across) == Factor(g, Channel, across);
    assert Factors(g, two, across) == Factors(g, one, across) * Factor(g, Package, across);
    assert Factors(g, three, across) == Factors(g, two, across) * Factor(g, Die, across);
  }

  lemma OrderDoesNotMatter(g: Geometry, across: bool)
    requires g.Valid()
    ensures Product(g, Select(g.order, g, across)) ==
            ((Factor(g, Channel, across) * Factor(g, Package, across)) * Factor(g, Die, across))
              * Factor(g, Plane, across)
  {
    SelectedFactors(g, g.order, across);
    FactorsPermute(g, g.order, AllDims, across);
    FourFactors(g, across);
  }

  lemma Rearrange(s: nat, a: nat, b: nat, c: nat, d: nat)
    ensures (((s * a) * b) * c) * d == (((a * b) * c) * d) * s
  {
    Associate(s, a, b);
    Associate(s, a * b, c);
    Associate(s, (a * b) * c, d);
  }

  lemma Exact(n: nat, q: nat)
    requires 0 < n
    ensures (q * n) / n == q
  {
    Combine(n, q, 0);
  }

  /** Counts only if asked. */
  function Part(counts: bool, n: nat): nat {
    if counts then n else 1
  }

  function Product5(s: nat, a: nat, b: nat, c: nat, d: nat): nat {
    Times(Times(Times(Times(s, a), b), c), d)
  }

  /** Both products: superblocks are counted along the dimensions that are not in the mask, a superpage extends over
      those that are, and over the planes also when they work together. */
  ghost predicate Multiplied(g: Geometry, superBlock: nat, superPageSize: nat) {
    && superBlock == Product5(g.blocks, Part(Channel !in g.mask, g.channels), Part(Package !in g.mask, g.packages),
                              Part(Die !in g.mask, g.dies), Part(Plane !in g.mask && !g.multiPlane, g.planes))
    && superPageSize == Product5(g.pageSize, Part(Channel in g.mask, g.channels), Part(Package in g.mask, g.packages),
                                 Part(Die in g.mask, g.dies), Part(Plane in g.mask || g.multiPlane, g.planes))
  }

  /** The pages that are addressed one by one: of planes that work together only one counts. */
  ghost predicate CountsPages(g: Geometry, pages: nat) {
    pages == Product5(1, Part(Channel in g.mask, g.channels), Part(Package in g.mask, g.packages),
                      Part(Die in g.mask, g.dies), Part(Plane in g.mask && !g.multiPlane, g.planes))
  }

  function Times(m: nat, n: nat): nat {
    m * n
  }

  lemma TimesOne()
    ensures forall m: nat {:trigger Times(m, 1)} :: Times(m, 1) == m
  {
  }

  method Multiply(g: Geometry) returns (superBlock: nat, superPageSize: nat)
    requires g.Valid()
    ensures Multiplied(g, superBlock, superPageSize)
  {
    hide Times;
    TimesOne();
    superBlock, superPageSize := g.blocks, g.pageSize;
    if Channel in g.mask {
      superPageSize := Times(superPageSize, g.channels);
    } else {
      superBlock := Times(superBlock, g.channels);
    }
    if Package in g.mask {
      superPageSize := Times(superPageSize, g.packages);
    } else {
      superBlock := Times(superBlock, g.packages);
    }
    if Die in g.mask {
      superPageSize := Times(superPageSize, g.dies);
    } else {
      superBlock := Times(superBlock, g.dies);
    }
    if g.multiPlane || Plane in g.mask {
      superPageSize := Times(superPageSize, g.planes);
    } else {
      superBlock := Times(superBlock, g.planes);
    }
  }

  lemma PartsAreFactors(g: Geometry)
    ensures Part(Channel in g.mask, g.channels) == Factor(g, Channel, true)
    ensures Part(Package in g.mask, g.packages) == Factor(g, Package, true)
    ensures Part(Die in g.mask, g.dies) == Factor(g, Die, true)
    ensures Part(Plane in g.mask && !g.multiPlane, g.planes) == Factor(g, Plane, true)
    ensures Part(Channel !in g.mask, g.channels) == Factor(g, Channel, false)
    ensures Part(Package !in g.mask, g.packages) == Factor(g, Package, false)
    ensures Part(Die !in g.mask, g.dies) == Factor(g, Die, false)
    ensures Part(Plane !in g.mask && !g.multiPlane, g.planes) == Factor(g, Plane, false)
  {
  }

  /** The same numbers, as the products over the dimensions in the allocation order. */
  lemma PagesAreCounted(g: Geometry)
    requires g.Valid()
    ensures CountsPages(g, PagesInSuperPage(g))
  {
    hide Product, Select;
    PartsAreFactors(g);
    OrderDoesNotMatter(g, true);
  }

  lemma MultipliedMeans(g: Geometry, superBlock: nat, superPageSize: nat)
    requires g.Valid() && Multiplied(g, superBlock, superPageSize)
    ensures superBlock == SuperBlocks(g)
    ensures superPageSize == (PagesInSuperPage(g) * (if g.multiPlane then g.planes else 1)) * g.pageSize
  {
    hide Product, Select;
    PartsAreFactors(g);
    var a, b := Factor(g, Channel, false), Factor(g, Package, false);
    var c, d := Factor(g, Die, false), Factor(g, Plane, false);
    OrderDoesNotMatter(g, false);
    Rearrange(g.blocks, a, b, c, d);
    Swap2(g.blocks, ((a * b) * c) * d);
    var a', b', c' := Factor(g, Channel, true), Factor(g, Package, true), Factor(g, Die, true);
    OrderDoesNotMatter(g, true);
    Rearrange(g.pageSize, a', b', c', if g.multiPlane then g.planes else Factor(g, Plane, true));
  }

  /** What the branches over the superblock mask compute: the number of superblocks, and the pages of a
      superpage that are addressed one by one. */
  method Sizes(g: Geometry) returns (superBlock: nat, superPageSize: nat, pageInSuperPage: nat)
    requires g.Valid()
    ensures Multiplied(g, superBlock, superPageSize) && CountsPages(g, pageInSuperPage)
    ensures superBlock == SuperBlocks(g)
    ensures pageInSuperPage == PagesInSuperPage(g)
    ensures superPageSize == (pageInSuperPage * (if g.multiPlane then g.planes else 1)) * g.pageSize
  {
    hide Multiplied, SuperBlocks, PagesInSuperPage, CountsPages;
    PagesAreCounted(g);
    superBlock, superPageSize := Multiply(g);
    MultipliedMeans(g, superBlock, superPageSize);
    Exact(g.pageSize, PagesInSuperPage(g) * (if g.multiPlane then g.planes else 1));
    pageInSuperPage := superPageSize / g.pageSize;
    if g.multiPlane {
      Exact(g.planes, PagesInSuperPage(g));
      pageInSuperPage := pageInSuperPage / g.planes;
    }
  }

  // ----- page allocation string (pal/config.cc) --------------------------------------------------------------------

  datatype ConfigFault = InvalidPageAllocation

  function Letter(c: char): Option<Dim> {
    if c == 'C' || c == 'c' then Some(Channel)
    else if c == 'W' || c == 'w' then Some(Package)
    else if c == 'D' || c == 'd' then Some(Die)
    else if c == 'P' || c == 'p' then Some(Plane)
    else None
  }

  /** The first four dimension letters of a string. */
  function Letters(s: string): (r: seq<Dim>)
    ensures |r| <= 4
    decreases |s|
  {
    if s == [] then []
    else
      var rest := Letters(s[..|s| - 1]);
      if |rest| < 4 && Letter(s[|s| - 1]).Some? then rest + [Letter(s[|s| - 1]).value] else rest
  }

  /** With multi-plane operation, the plane comes first and the others keep their order. */
  function PlaneFirst(ds: seq<Dim>): seq<Dim> {
    [Plane] + Others(ds)
  }

  function Others(ds: seq<Dim>): seq<Dim> {
    if ds == [] then [] else Others(ds[..|ds| - 1]) + if ds[|ds| - 1] == Plane then [] else [ds[|ds| - 1]]
  }

  /** The letters of the dimensions, in either case. */
  lemma LettersMean()
    ensures Letters("CWDP") == [Channel, Package, Die, Plane]
    ensures Letters("pdwc") == [Plane, Die, Package, Channel]
  {
    var s, t := "CWDP", "pdwc";
    assert s[..3] == "CWD" && s[..3][..2] == "CW" && s[..3][..2][..1] == "C" && s[..3][..2][..1][..0] == "";
    assert t[..3] == "pdw" && t[..3][..2] == "pd" && t[..3][..2][..1] == "p" && t[..3][..2][..1][..0] == "";
    assert Letters("") == [];
    assert Letters("C") == [Channel] && Letters("CW") == [Channel, Package];
    assert Letters("CWD") == [Channel, Package, Die];
    assert Letters("p") == [Plane] && Letters("pd") == [Plane, Die] && Letters("pdw") == [Plane, Die, Package];
  }

  lemma {:induction false} LettersStop(s: string, t: string)
    requires |Letters(s)| == 4
    ensures Letters(s + t) == Letters(s)
    decreases |t|
  {
    if t == [] {
      assert s + t == s;
    } else {
      assert (s + t)[..|s + t| - 1] == s + t[..|t| - 1];
      LettersStop(s, t[..|t| - 1]);
    }
  }

  lemma Cover(ds: seq<Dim>)
    requires |ds| <= 4 && forall d :: d in AllDims ==> d in ds
    ensures multiset(ds) == multiset(AllDims) && Distinct(ds)
  {
    var rest := multiset(ds) - multiset(AllDims);
    assert multiset(AllDims) == multiset{Channel, Package, Die, Plane};
    assert Channel in AllDims && Package in AllDims && Die in AllDims && Plane in AllDims;
    assert multiset(AllDims) <= multiset(ds);
    assert multiset(ds) == multiset(AllDims) + rest;
    assert |rest| == 0;
    assert rest == multiset{};
    forall i, j | 0 <= i < j < |ds|
      ensures ds[i] != ds[j]
    {
      EachDimOnce(ds[i]);
      if ds[i] == ds[j] { Twice(ds, i, j); }
    }
  }

  lemma Repeats(ds: seq<Dim>, d: Dim)
    requires d in ds || !Distinct(ds)
    ensures !Distinct(ds + [d])
  {
    var es := ds + [d];
    if d in ds {
      var j :| 0 <= j < |ds| && ds[j] == d;
      assert es[j] == es[|ds|];
    } else {
      var i, j :| 0 <= i < j < |ds| && ds[i] == ds[j];
      assert es[i] == es[j];
    }
  }

  /** Collect up to four dimension letters. */
  method ScanLetters(s: string) returns (ds: seq<Dim>, check: set<Dim>, fail: bool)
    ensures ds == Letters(s) && (forall d :: d in check <==> d in ds) && (fail ==> !Distinct(ds))
  {
    hide Letter;
    ds, check, fail := [], {}, false;
    var i := 0;
    while i < |s| && |ds| < 4
      invariant i <= |s| && ds == Letters(s[..i])
      invariant forall d :: d in check <==> d in ds
      invariant fail ==> !Distinct(ds)
    {
      assert s[..i + 1][..i] == s[..i];
      var d := Letter(s[i]);
      if d.Some? {
        if d.value in check || fail { Repeats(ds, d.value); }
        if d.value in check { fail := true; }
        ds := ds + [d.value];
        check := check + {d.value};
      }
      i := i + 1;
    }
    assert s == s[..i] + s[i..] && (i == |s| ==> s[..i] == s);
    if i < |s| { LettersStop(s[..i], s[i..]); }
  }

  method ParseAllocation(s: string, multiPlane: bool) returns (r: Outcome<seq<Dim>, ConfigFault>)
    ensures r.Ok? <==> multiset(Letters(s)) == multiset(AllDims)
    ensures r.Ok? ==> multiset(r.value) == multiset(AllDims)
    ensures r.Ok? ==> r.value == if multiPlane then PlaneFirst(Letters(s)) else Letters(s)
  {
    hide Letters, PlaneFirst;
    var ds, check, fail := ScanLetters(s);
    if check != {Channel, Package, Die, Plane} {
      Missing(ds, check);
      return Panic(InvalidPageAllocation);
    }
    Cover(ds);
    if multiPlane { ds := MovePlane(ds); }
    r := if fail then Panic(InvalidPageAllocation) else Ok(ds);
  }

  lemma Missing(ds: seq<Dim>, check: set<Dim>)
    requires (forall d :: d in check <==> d in ds) && check != {Channel, Package, Die, Plane}
    ensures multiset(ds) != multiset(AllDims)
  {
    forall d: Dim | d !in check
      ensures multiset(ds) != multiset(AllDims)
    {
      EachDimOnce(d);
      assert d !in multiset(ds);
    }
    if Channel in check && Package in check && Die in check && Plane in check { AllChecked(check); }
  }

  lemma AllChecked(check: set<Dim>)
    requires Channel in check && Package in check && Die in check && Plane in check
    ensures check == {Channel, Package, Die, Plane}
  {
    forall d: Dim
      ensures d in check && d in {Channel, Package, Die, Plane}
    {
      match d case Channel => case Package => case Die => case Plane =>
    }
  }

  lemma {:induction false} NoPlane(ds: seq<Dim>)
    requires Plane !in ds
    ensures Others(ds) == ds
    decreases |ds|
  {
    if ds != [] {
      NoPlane(ds[..|ds| - 1]);
      assert ds == ds[..|ds| - 1] + [ds[|ds| - 1]];
    }
  }

  lemma {:induction false} OthersAppend(ds: seq<Dim>, es: seq<Dim>)
    ensures Others(ds + es) == Others(ds) + Others(es)
    decreases |es|
  {
    if es == [] {
      assert ds + es == ds;
    } else {
      assert (ds + es)[..|ds + es| - 1] == ds + es[..|es| - 1];
      OthersAppend(ds, es[..|es| - 1]);
    }
  }

  lemma OthersAround(a: seq<Dim>, b: seq<Dim>)
    requires Plane !in a && Plane !in b
    ensures Others(a + [Plane] + b) == a + b
  {
    JustPlane();
    hide Others;
    OthersAppend(a + [Plane], b);
    OthersAppend(a, [Plane]);
    NoPlane(a);
    NoPlane(b);
    assert a + [] == a;
  }

  lemma JustPlane()
    ensures Others([Plane]) == []
  {
  }

  lemma OthersAre(ds: seq<Dim>, i: nat)
    requires i < |ds| && ds[i] == Plane && Plane !in ds[..i] && Plane !in ds[i + 1..]
    ensures PlaneFirst(ds) == [Plane] + ds[..i] + ds[i + 1..] && multiset(PlaneFirst(ds)) == multiset(ds)
  {
    hide Others;
    var a, b := ds[..i], ds[i + 1..];
    assert ds == a + [Plane] + b;
    OthersAround(a, b);
    assert [Plane] + (a + b) == [Plane] + a + b;
  }

  /** Shift what is before position i back by one and put the element at i in front. */
  method MoveToFront(ds: seq<Dim>, i: nat) returns (r: seq<Dim>)
    requires i < |ds|
    ensures r == [ds[i]] + ds[..i] + ds[i + 1..]
  {
    r := ds;
    var j := i;
    while j > 0
      invariant 0 <= j <= i && |r| == |ds|
      invariant forall k :: 0 <= k <= j || i < k < |ds| ==> r[k] == ds[k]
      invariant forall k :: j < k <= i ==> r[k] == ds[k - 1]
    {
      r := r[j := r[j - 1]];
      j := j - 1;
    }
    r := r[0 := ds[i]];
  }

  method MovePlane(ds: seq<Dim>) returns (r: seq<Dim>)
    requires multiset(ds) == multiset(AllDims) && Distinct(ds)
    ensures r == PlaneFirst(ds) && multiset(r) == multiset(ds)
  {
    hide PlaneFirst;
    EachDimOnce(Plane);
    assert Plane in multiset(ds);
    var i := 0;
    while ds[i] != Plane
      invariant i < |ds| && Plane !in ds[..i]
      decreases |ds| - i
    {
      i := i + 1;
    }
    OthersAre(ds, i);
    r := MoveToFront(ds, i);
  }

  // ----- convertCPDPBP ---------------------------------------------------------------------------------------------

  datatype AddressFault = InvalidFlagSize | FlagCountMismatch

  /** Addresses of the flagged units among the first n units, in order. */
  function Picked(g: Geometry, ds: seq<Dim>, a: Address, flags: seq<bool>, first: nat, n: nat): seq<Address>
    requires Sized(g, ds) && first + n <= |flags|
  {
    if n == 0 then []
    else Picked(g, ds, a, flags, first, n - 1) + if flags[first + n - 1] then [Place(g, ds, a, n - 1)] else []
  }

  /** One more round of the outermost loop adds one whole inner nest. */
  lemma {:induction false} PickedRound(g: Geometry, ds: seq<Dim>, a: Address, flags: seq<bool>, first: nat, v: nat,
      m: nat)
    requires ds != [] && Sized(g, ds) && m <= Product(g, ds[..|ds| - 1])
    requires first + (v * Product(g, ds[..|ds| - 1]) + m) <= |flags|
    ensures var n := |ds| - 1;
            var p := v * Product(g, ds[..n]);
            Picked(g, ds, a, flags, first, p + m) ==
            Picked(g, ds, a, flags, first, p) + Picked(g, ds[..n], a.With(ds[n], v), flags, first + p, m)
    decreases m
  {
    if m > 0 {
      var n := |ds| - 1;
      PickedRound(g, ds, a, flags, first, v, m - 1);
      Combine(Product(g, ds[..n]), v, m - 1);
    }
  }

  lemma NextRound(v: nat, p: nat, size: nat)
    requires v < size
    ensures v * p + p == (v + 1) * p && (v + 1) * p <= p * size
  {
    assert (size - (v + 1)) * p >= 0;
    assert (size - (v + 1)) * p == size * p - (v + 1) * p;
  }

  lemma ProductStep(g: Geometry, ds: seq<Dim>)
    ensures ds == [] ==> Product(g, ds) == 1
    ensures ds != [] ==> Product(g, ds) == Product(g, ds[..|ds| - 1]) * g.Size(ds[|ds| - 1])
  {
  }

  lemma PickedNone(g: Geometry, ds: seq<Dim>, a: Address, flags: seq<bool>, first: nat)
    requires Sized(g, ds) && first <= |flags|
    ensures Picked(g, ds, a, flags, first, 0) == []
  {
  }

  lemma PickedOne(g: Geometry, a: Address, flags: seq<bool>, first: nat)
    ensures first < |flags| ==> Picked(g, [], a, flags, first, 1) == if flags[first] then [a] else []
  {
    if first < |flags| { PickedNone(g, [], a, flags, first); }
  }

  /** The nested loops over the dimensions ds, the last one outermost; `tmp` counts the flags looked at. */
  method Nest(g: Geometry, ds: seq<Dim>, a: Address, flags: seq<bool>, tmp: nat, list: seq<Address>)
    returns (tmp': nat, list': seq<Address>)
    requires Sized(g, ds) && tmp + Product(g, ds) <= |flags|
    ensures tmp' == tmp + Product(g, ds)
    ensures list' == list + Picked(g, ds, a, flags, tmp, Product(g, ds))
    decreases |ds|
  {
    hide Product, Picked, Place;
    ProductStep(g, ds);
    PickedOne(g, a, flags, tmp);
    tmp', list' := tmp, list;
    if ds == [] {
      if flags[tmp] { list' := list' + [a]; }
      tmp' := tmp' + 1;
    } else {
      var n := |ds| - 1;
      ghost var p := Product(g, ds[..n]);
      PickedNone(g, ds, a, flags, tmp);
      for v := 0 to g.Size(ds[n])
        invariant tmp' == tmp + v * p && v * p <= Product(g, ds)
        invariant list' == list + Picked(g, ds, a, flags, tmp, v * p)
      {
        NextRound(v, p, g.Size(ds[n]));
        PickedRound(g, ds, a, flags, tmp, v, p);
        tmp', list' := Nest(g, ds[..n], a.With(ds[n], v), flags, tmp', list');
      }
      Swap2(g.Size(ds[n]), p);
    }
  }

  /** With random I/O the flags must fit; otherwise flags of another size stand for all units. */
  function Effective(g: Geometry, flags: seq<bool>): (r: seq<bool>)
    ensures |r| == PagesInSuperPage(g)
  {
    if |flags| == PagesInSuperPage(g) then flags else seq(PagesInSuperPage(g), i => true)
  }

  /** The first loop over the allocation order: coordinates of the dimensions along which superblocks are
      numbered, and the list of the others. */
  method StripOrder(g: Geometry, n: nat) returns (a: Address, ds: seq<Dim>)
    requires Sized(g, g.order) && Sized(g, Serial(g))
    ensures a == Strip(g, Serial(g), Zero, n) && ds == Parallel(g)
  {
    hide Strip, Select;
    var tmp: nat := n;
    a, ds := Zero, [];
    SelectNone(g);
    assert g.order[0..] == g.order && g.order[..0] == [];
    for i := 0 to |g.order|
      invariant ds == Select(g.order[..i], g, true)
      invariant Sized(g, Select(g.order[i..], g, false))
      invariant Strip(g, Select(g.order[i..], g, false), a, tmp) == Strip(g, Serial(g), Zero, n)
    {
      var d := g.order[i];
      SelectLast(g.order, i, g);
      StripNext(g, g.order[i..], a, tmp);
      assert g.order[i..][1..] == g.order[i + 1..];
      if !(g.multiPlane && d == Plane) {
        if d in g.mask {
          ds := ds + [d];
        } else {
          a, tmp := a.With(d, tmp % g.Size(d)), tmp / g.Size(d);
        }
      }
    }
    assert g.order[..|g.order|] == g.order;
    StripEnd(g, g.order[|g.order|..], a, tmp);
    a := a.(block := tmp);
  }

  lemma SelectNone(g: Geometry)
    ensures Select([], g, true) == []
  {
  }

  lemma SelectLast(ds: seq<Dim>, i: nat, g: Geometry)
    requires i < |ds|
    ensures Select(ds[..i + 1], g, true) == Select(ds[..i], g, true) + if g.Across(ds[i]) then [ds[i]] else []
  {
    assert ds[..i + 1][..i] == ds[..i];
  }

  lemma StripNext(g: Geometry, ds: seq<Dim>, a: Address, tmp: nat)
    requires ds != [] && Sized(g, Select(ds, g, false)) && 0 < g.Size(ds[0])
    ensures Sized(g, Select(ds[1..], g, false))
    ensures Strip(g, Select(ds, g, false), a, tmp) ==
            if g.Along(ds[0]) then Strip(g, Select(ds[1..], g, false), a.With(ds[0], tmp % g.Size(ds[0])),
                tmp / g.Size(ds[0]))
            else Strip(g, Select(ds[1..], g, false), a, tmp)
  {
    hide Select, Strip;
    var rest := Select(ds[1..], g, false);
    SelectHead(ds, g, false);
    if g.Along(ds[0]) {
      StripCons(g, ds[0], rest, a, tmp);
    } else {
      assert [] + rest == rest;
    }
  }

  lemma StripCons(g: Geometry, d: Dim, rest: seq<Dim>, a: Address, tmp: nat)
    requires Sized(g, rest) && 0 < g.Size(d)
    ensures Strip(g, [d] + rest, a, tmp) == Strip(g, rest, a.With(d, tmp % g.Size(d)), tmp / g.Size(d))
  {
    assert ([d] + rest)[1..] == rest;
  }

  lemma StripEnd(g: Geometry, ds: seq<Dim>, a: Address, tmp: nat)
    requires ds == []
    ensures Strip(g, Select(ds, g, false), a, tmp) == a.(block := tmp)
  {
  }

  lemma {:induction false} SelectHead(ds: seq<Dim>, g: Geometry, across: bool)
    requires ds != []
    ensures Select(ds, g, across) ==
            (if (if across then g.Across(ds[0]) else g.Along(ds[0])) then [ds[0]] else []) + Select(ds[1..], g, across)
    decreases |ds|
  {
    var n := |ds| - 1;
    SelectSnoc(ds, g, across);
    if n > 0 {
      SelectSnoc(ds[1..], g, across);
      SelectHead(ds[..n], g, across);
      hide Select;
      assert ds[1..][..n - 1] == ds[..n][1..];
      var head := if (if across then g.Across(ds[0]) else g.Along(ds[0])) then [ds[0]] else [];
      var last := if (if across then g.Across(ds[n]) else g.Along(ds[n])) then [ds[n]] else [];
      Regrouped(head, Select(ds[..n][1..], g, across), last);
    }
  }

  lemma Regrouped(a: seq<Dim>, b: seq<Dim>, c: seq<Dim>)
    ensures (a + b) + c == a + (b + c)
  {
  }

  lemma SelectSnoc(ds: seq<Dim>, g: Geometry, across: bool)
    requires ds != []
    ensures var d := ds[|ds| - 1];
            Select(ds, g, across) == Select(ds[..|ds| - 1], g, across)
              + if (if across then g.Across(d) else g.Along(d)) then [d] else []
  {
  }

  /** convertCPDPBP: the pages of the flagged units of superblock n. The second fault cannot happen. */
  method Convert(g: Geometry, n: nat, flags: seq<bool>, randomTweak: bool)
    returns (r: Outcome<seq<Address>, AddressFault>)
    requires g.Valid()
    ensures r == Panic(InvalidFlagSize) <==> randomTweak && !CountsPages(g, |flags|)
    ensures r != Panic(FlagCountMismatch)
    ensures Sized(g, Serial(g)) && Sized(g, Parallel(g))
    ensures r.Ok? ==>
              r.value == Picked(g, Parallel(g), Strip(g, Serial(g), Zero, n), Effective(g, flags), 0,
                  PagesInSuperPage(g))
  {
    hide Strip, Product, Picked, Select;
    PagesAreCounted(g);
    OrderFacts(g);
    var pages := PagesInSuperPage(g);
    if randomTweak && |flags| != pages { return Panic(InvalidFlagSize); }
    var effective := Effective(g, flags);
    var a, ds := StripOrder(g, n);
    var tmp, list := Nest(g, ds, a, effective, 0, []);
    assert [] + list == list;
    r := if tmp != pages then Panic(FlagCountMismatch) else Ok(list);
  }

  lemma {:induction false} PickedMembers(g: Geometry, ds: seq<Dim>, a: Address, flags: seq<bool>, n: nat, x: Address)
    requires Sized(g, ds) && n <= |flags|
    ensures x in Picked(g, ds, a, flags, 0, n) <==> exists u :: 0 <= u < n && flags[u] && Place(g, ds, a, u) == x
    decreases n
  {
    hide Place;
    if n > 0 { PickedMembers(g, ds, a, flags, n - 1, x); }
  }

  lemma EffectiveIs(g: Geometry, flags: seq<bool>, u: nat)
    requires g.Valid() && u < PagesInSuperPage(g)
    ensures Effective(g, flags)[u] <==> (CountsPages(g, |flags|) ==> u < |flags| && flags[u])
  {
    hide PagesInSuperPage, Product5;
    PagesAreCounted(g);
  }

  /** The list holds the page of unit u exactly if u is flagged or the flags are not one for each unit. Different units
      never share a page. */
  lemma ConvertedUnits(g: Geometry, n: nat, flags: seq<bool>, u: nat)
    requires g.Valid() && n < SuperBlocks(g) && u < PagesInSuperPage(g)
    ensures Sized(g, Serial(g)) && Sized(g, Parallel(g))
    ensures var list := Picked(g, Parallel(g), Strip(g, Serial(g), Zero, n), Effective(g, flags), 0,
        PagesInSuperPage(g));
            Locate(g, n, u) in list <==> (CountsPages(g, |flags|) ==> u < |flags| && flags[u])
  {
    EffectiveIs(g, flags, u);
    hide Place, Strip, Picked, Select, Product, SuperBlocks, PagesInSuperPage, UnitOf, SuperBlockOf;
    hide CountsPages, Effective;
    OrderFacts(g);
    var a := Strip(g, Serial(g), Zero, n);
    PickedMembers(g, Parallel(g), a, Effective(g, flags), PagesInSuperPage(g), Locate(g, n, u));
    LocateThenFind(g, n, u);
    forall v | 0 <= v < PagesInSuperPage(g) && Place(g, Parallel(g), a, v) == Locate(g, n, u)
      ensures v == u
    {
      LocateThenFind(g, n, v);
    }
  }
}
