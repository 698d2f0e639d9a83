/** Logical blocks to logical pages (convertUnit of hil/nvme/subsystem.cc) and the page loop of icl/icl.cc. */
module PageTiling {
  import opened Arithmetic

  datatype PageRequest = PageRequest(slpn: nat, nlp: nat, offset: nat, length: nat)

  /** convertUnit; `base` is the first page of the namespace. */
  function ConvertUnit(pageSize: nat, lbaSize: nat, base: nat, slba: nat, nlblk: nat): PageRequest
    requires 0 < pageSize && 0 < lbaSize
  {
    var ratio := pageSize / lbaSize;
    if ratio == 0 then
      var ratio := lbaSize / pageSize;
      PageRequest(slba * ratio + base, nlblk * ratio, 0, nlblk * lbaSize)
    else
      var off := slba % ratio;
      PageRequest(slba / ratio + base, (nlblk + off + ratio - 1) / ratio, off * lbaSize, nlblk * lbaSize)
  }

  /** The byte at which a request starts. */
  function Start(pageSize: nat, r: PageRequest): nat {
    r.slpn * pageSize + r.offset
  }

  /** The pages of a request are exactly those its bytes touch. */
  predicate Snug(pageSize: nat, r: PageRequest) {
    r.offset < pageSize && 0 < r.length && 0 < r.nlp && (r.nlp - 1) * pageSize < r.offset + r.length <= r.nlp * pageSize
  }

  predicate Divides(m: nat, n: nat) {
    0 < m && n % m == 0
  }

  /** A multiple is its quotient times the divisor. */
  lemma Exactly(n: nat, m: nat)
    requires Divides(m, n)
    ensures n == (n / m) * m && (0 < n ==> 0 < n / m)
  {
    DivMod(n, m);
  }

  lemma Reorder(a: nat, b: nat, c: nat)
    ensures (a * b) * c == a * (b * c) && (a * b) * c == (a * c) * b
  {
  }

  lemma Distribute(a: nat, b: nat, c: nat)
    ensures (a + b) * c == a * c + b * c
  {
  }

  lemma Scale(x: nat, y: nat, n: nat)
    requires x < y && 0 < n
    ensures x * n < y * n
  {
    assert (y - x) * n == y * n - x * n;
    AtLeastOnce(y - x, n);
  }

  /** Blocks no larger than a page. */
  lemma SmallBlocks(pageSize: nat, lbaSize: nat, base: nat, slba: nat, nlblk: nat)
    requires 0 < pageSize && 0 < nlblk && Divides(lbaSize, pageSize)
    ensures var r := ConvertUnit(pageSize, lbaSize, base, slba, nlblk);
            Start(pageSize, r) == base * pageSize + slba * lbaSize && r.length == nlblk * lbaSize && Snug(pageSize, r)
  {
    Exactly(pageSize, lbaSize);
    var ratio := pageSize / lbaSize;
    var r := ConvertUnit(pageSize, lbaSize, base, slba, nlblk);
    var q, off := slba / ratio, slba % ratio;
    DivMod(slba, ratio);
    Distribute(q, base, pageSize);
    Reorder(q, ratio, lbaSize);
    Distribute(q * ratio, off, lbaSize);
    Scale(off, ratio, lbaSize);
    var m := nlblk + off;
    DivMod(m + ratio - 1, ratio);
    var n := r.nlp;
    Distribute(nlblk, off, lbaSize);
    assert n * ratio >= m && (n - 1) * ratio < m && 0 < n by { CeilBounds(m, ratio); }
    Positive(nlblk, lbaSize);
    Reorder(n, ratio, lbaSize);
    Reorder(n - 1, ratio, lbaSize);
    Scale((n - 1) * ratio, m, lbaSize);
    NotLess(m, n * ratio, lbaSize);
  }

  lemma CeilBounds(m: nat, ratio: nat)
    requires 0 < ratio && 0 < m
    ensures var n := (m + ratio - 1) / ratio; 0 < n && (n - 1) * ratio < m <= n * ratio
  {
    DivMod(m + ratio - 1, ratio);
    var n := (m + ratio - 1) / ratio;
    assert n == 0 ==> n * ratio == 0;
    Distribute(n - 1, 1, ratio);
  }

  /** Blocks larger than a page. */
  lemma LargeBlocks(pageSize: nat, lbaSize: nat, base: nat, slba: nat, nlblk: nat)
    requires 0 < pageSize < lbaSize && 0 < nlblk && Divides(pageSize, lbaSize)
    ensures var r := ConvertUnit(pageSize, lbaSize, base, slba, nlblk);
            Start(pageSize, r) == base * pageSize + slba * lbaSize && r.length == nlblk * lbaSize && Snug(pageSize, r)
  {
    QuotientZero(pageSize, lbaSize);
    Exactly(lbaSize, pageSize);
    var ratio := lbaSize / pageSize;
    Distribute(slba * ratio, base, pageSize);
    Reorder(slba, ratio, pageSize);
    Reorder(nlblk, ratio, pageSize);
    Positive(nlblk, ratio);
    Positive(nlblk, lbaSize);
    var n := nlblk * ratio;
    Distribute(n - 1, 1, pageSize);
  }

  lemma QuotientZero(m: nat, n: nat)
    requires m < n
    ensures m / n == 0
  {
    Combine(n, 0, m);
  }

  /** If one size divides the other, the request starts at the right byte, has the right length, and has as many
      pages as its bytes touch. */
  lemma ConvertIsExact(pageSize: nat, lbaSize: nat, base: nat, slba: nat, nlblk: nat)
    requires 0 < pageSize && 0 < lbaSize && 0 < nlblk && (Divides(lbaSize, pageSize) || Divides(pageSize, lbaSize))
    ensures var r := ConvertUnit(pageSize, lbaSize, base, slba, nlblk);
            Start(pageSize, r) == base * pageSize + slba * lbaSize && r.length == nlblk * lbaSize && Snug(pageSize, r)
  {
    if pageSize < lbaSize {
      if Divides(lbaSize, pageSize) { Combine(lbaSize, 0, pageSize); assert false; }
      LargeBlocks(pageSize, lbaSize, base, slba, nlblk);
    } else {
      if !Divides(lbaSize, pageSize) {
        if lbaSize < pageSize { Combine(pageSize, 0, lbaSize); }
        assert false;
      }
      SmallBlocks(pageSize, lbaSize, base, slba, nlblk);
    }
  }

  /** And only then: otherwise the first block of some page starts at the wrong byte. */
  lemma StartIsExactOnlyIf(pageSize: nat, lbaSize: nat)
    requires 0 < pageSize && 0 < lbaSize
    requires forall slba: nat :: Start(pageSize, ConvertUnit(pageSize, lbaSize, 0, slba, 1)) == slba * lbaSize
    ensures Divides(lbaSize, pageSize) || Divides(pageSize, lbaSize)
  {
    var ratio := pageSize / lbaSize;
    if ratio == 0 {
      var q := lbaSize / pageSize;
      assert Start(pageSize, ConvertUnit(pageSize, lbaSize, 0, 1, 1)) == 1 * lbaSize;
      Combine(pageSize, q, 0);
    } else {
      var r := ConvertUnit(pageSize, lbaSize, 0, ratio, 1);
      assert Start(pageSize, r) == ratio * lbaSize;
      Combine(ratio, 1, 0);
      assert r.slpn == 1 && r.offset == 0;
      Combine(lbaSize, ratio, 0);
    }
  }

  // ----- the page loop ---------------------------------------------------------------------------------------

  datatype Piece = Piece(page: nat, offset: nat, length: nat)

  function First(pageSize: nat, p: Piece): nat {
    p.page * pageSize + p.offset
  }

  function Past(pageSize: nat, p: Piece): nat {
    First(pageSize, p) + p.length
  }

  /** Each piece lies in one page and begins where the one before it ended; together they are [from, to). */
  ghost predicate Tiles(pageSize: nat, ps: seq<Piece>, from: nat, to: nat) {
    && (forall i :: 0 <= i < |ps| ==> ps[i].offset + ps[i].length <= pageSize)
    && (if ps == [] then from == to
        else && First(pageSize, ps[0]) == from && Past(pageSize, ps[|ps| - 1]) == to
             && forall i :: 0 < i < |ps| ==> Past(pageSize, ps[i - 1]) == First(pageSize, ps[i]))
  }

  /** Bytes before the page `i` pages into the request. */
  function PageStart(pageSize: nat, r: PageRequest, i: nat): nat {
    (r.slpn + i) * pageSize
  }

  lemma PageStarts(pageSize: nat, r: PageRequest, i: nat)
    ensures PageStart(pageSize, r, i + 1) == PageStart(pageSize, r, i) + pageSize
    ensures PageStart(pageSize, r, i) == r.slpn * pageSize + i * pageSize
  {
    Distribute(r.slpn, i, pageSize);
    Distribute(r.slpn + i, 1, pageSize);
  }

  lemma PagesAhead(pageSize: nat, r: PageRequest, i: nat)
    requires Snug(pageSize, r) && i < r.nlp
    ensures var end := Start(pageSize, r) + r.length;
            && PageStart(pageSize, r, i) < end
            && (i + 1 < r.nlp ==> PageStart(pageSize, r, i + 1) < end)
            && (i + 1 == r.nlp ==> end <= PageStart(pageSize, r, i + 1))
  {
    PageStarts(pageSize, r, i);
    PageStarts(pageSize, r, r.nlp - 1);
    PageStarts(pageSize, r, r.nlp);
    NotLess(i, r.nlp - 1, pageSize);
    if i + 1 < r.nlp {
      PageStarts(pageSize, r, i + 1);
      NotLess(i + 1, r.nlp - 1, pageSize);
    }
  }

  /** Bytes of a request that do not fit in n pages. */
  function Excess(pageSize: nat, r: PageRequest, n: nat): nat {
    if n == 0 then r.length
    else if r.offset + r.length <= n * pageSize then 0
    else r.offset + r.length - n * pageSize
  }

  lemma ExcessShrinks(pageSize: nat, r: PageRequest, n: nat)
    requires r.offset < pageSize
    ensures var room := pageSize - if n == 0 then r.offset else 0;
            var x := Excess(pageSize, r, n);
            Excess(pageSize, r, n + 1) == x - if x < room then x else room
  {
    Distribute(n, 1, pageSize);
  }

  /** What an unsigned subtraction leaves of the page. */
  function Room(pageSize: nat, offset: nat): nat {
    (pageSize - offset) % Wrap
  }

  lemma RoomInside(pageSize: nat, offset: nat)
    requires offset <= pageSize < Wrap
    ensures Room(pageSize, offset) == pageSize - offset
  {
  }

  function Total(ps: seq<Piece>): nat {
    if ps == [] then 0 else Total(ps[..|ps| - 1]) + ps[|ps| - 1].length
  }

  lemma TotalSnoc(ps: seq<Piece>, p: Piece)
    ensures Total(ps + [p]) == Total(ps) + p.length && Total([]) == 0
  {
    assert (ps + [p])[..|ps|] == ps;
  }

  /** ICL::read and ICL::write: one piece per page, and no byte is counted twice or forgotten. For a snug request
      the pieces are not empty, they tile its bytes, and nothing remains. The first offset is subtracted without a
      check: if it lies beyond the page, the room in the page wraps around. */
  method SplitPages(pageSize: nat, r: PageRequest) returns (ps: seq<Piece>, remain: nat)
    requires pageSize < Wrap
    ensures |ps| == r.nlp && (forall i :: 0 <= i < |ps| ==> ps[i].page == r.slpn + i)
    ensures Total(ps) + remain == r.length
    ensures r.offset < pageSize ==> remain == Excess(pageSize, r, r.nlp)
    ensures Snug(pageSize, r) ==>
              && remain == 0 && Tiles(pageSize, ps, Start(pageSize, r), Start(pageSize, r) + r.length)
              && forall i :: 0 <= i < |ps| ==> 0 < ps[i].length
  {
    hide PageStart, Start, Tiles, Progress, Excess, Snug, Room, Total;
    ps, remain := [], r.length;
    WholeExcess(pageSize, r);
    TotalSnoc([], Piece(0, 0, 0));
    ProgressBegins(pageSize, r);
    var offset := r.offset;
    for i := 0 to r.nlp
      invariant |ps| == i && (forall j :: 0 <= j < i ==> ps[j].page == r.slpn + j)
      invariant offset == if i == 0 then r.offset else 0
      invariant Total(ps) + remain == r.length
      invariant r.offset < pageSize ==> remain == Excess(pageSize, r, i)
      invariant Snug(pageSize, r) ==> Progress(pageSize, r, ps, remain)
    {
      var room := Room(pageSize, offset);
      var length := if remain < room then remain else room;
      TotalSnoc(ps, Piece(r.slpn + i, offset, length));
      if r.offset < pageSize {
        RoomInside(pageSize, offset);
        ExcessShrinks(pageSize, r, i);
      }
      if Snug(pageSize, r) { Advance(pageSize, r, ps, remain, length); }
      ps := ps + [Piece(r.slpn + i, offset, length)];
      remain := remain - length;
      offset := 0;
    }
    if Snug(pageSize, r) { ProgressEnds(pageSize, r, ps, remain); }
  }

  lemma WholeExcess(pageSize: nat, r: PageRequest)
    ensures Excess(pageSize, r, 0) == r.length && (Snug(pageSize, r) ==> r.offset < pageSize && 0 < r.nlp)
  {
  }

  /** The pieces so far tile the bytes up to the next page, or to the end. */
  ghost predicate Progress(pageSize: nat, r: PageRequest, ps: seq<Piece>, remain: nat) {
    && |ps| <= r.nlp && remain <= r.length
    && Tiles(pageSize, ps, Start(pageSize, r), Start(pageSize, r) + r.length - remain)
    && (forall i :: 0 <= i < |ps| ==> 0 < ps[i].length)
    && (0 < |ps| < r.nlp ==> Start(pageSize, r) + r.length - remain == PageStart(pageSize, r, |ps|))
    && (|ps| == 0 ==> remain == r.length)
    && (0 < |ps| == r.nlp ==> remain == 0)
  }

  lemma ProgressBegins(pageSize: nat, r: PageRequest)
    ensures 0 < r.nlp ==> Progress(pageSize, r, [], r.length)
  {
  }

  lemma Advance(pageSize: nat, r: PageRequest, ps: seq<Piece>, remain: nat, length: nat)
    requires Snug(pageSize, r) && Progress(pageSize, r, ps, remain) && |ps| < r.nlp
    requires var offset := if |ps| == 0 then r.offset else 0;
             length == if remain < pageSize - offset then remain else pageSize - offset
    ensures var offset := if |ps| == 0 then r.offset else 0;
            Progress(pageSize, r, ps + [Piece(r.slpn + |ps|, offset, length)], remain - length)
  {
    hide Tiles, First, PageStart, Start;
    var i := |ps|;
    var offset := if i == 0 then r.offset else 0;
    var p := Piece(r.slpn + i, offset, length);
    var from := Start(pageSize, r);
    var at := from + r.length - remain;
    PagesAhead(pageSize, r, i);
    PageStarts(pageSize, r, i);
    FirstPiece(pageSize, r, p, i);
    assert at == PageStart(pageSize, r, i) + offset;
    TilesSnoc(pageSize, ps, from, at, p);
    assert at + length == from + r.length - (remain - length);
  }

  lemma FirstPiece(pageSize: nat, r: PageRequest, p: Piece, i: nat)
    requires p.page == r.slpn + i
    ensures First(pageSize, p) == PageStart(pageSize, r, i) + p.offset
    ensures PageStart(pageSize, r, 0) + r.offset == Start(pageSize, r)
  {
  }

  lemma TilesSnoc(pageSize: nat, ps: seq<Piece>, from: nat, at: nat, p: Piece)
    requires Tiles(pageSize, ps, from, at) && First(pageSize, p) == at && p.offset + p.length <= pageSize
    ensures Tiles(pageSize, ps + [p], from, at + p.length)
  {
    hide First;
    var qs := ps + [p];
    forall i | 0 < i < |qs|
      ensures Past(pageSize, qs[i - 1]) == First(pageSize, qs[i])
    {
      if i < |ps| { assert qs[i - 1] == ps[i - 1] && qs[i] == ps[i]; }
    }
  }

  lemma ProgressEnds(pageSize: nat, r: PageRequest, ps: seq<Piece>, remain: nat)
    requires Snug(pageSize, r) && Progress(pageSize, r, ps, remain) && |ps| == r.nlp
    ensures remain == 0 && Tiles(pageSize, ps, Start(pageSize, r), Start(pageSize, r) + r.length)
    ensures forall i :: 0 <= i < |ps| ==> 0 < ps[i].length
  {
  }

  /** A host command for blocks [slba, slba + nlblk) becomes pieces that tile exactly its bytes. */
  method SplitCommand(pageSize: nat, lbaSize: nat, base: nat, slba: nat, nlblk: nat) returns (ps: seq<Piece>)
    requires 0 < pageSize < Wrap && 0 < lbaSize && 0 < nlblk
    requires Divides(lbaSize, pageSize) || Divides(pageSize, lbaSize)
    ensures Tiles(pageSize, ps, base * pageSize + slba * lbaSize, base * pageSize + (slba + nlblk) * lbaSize)
    ensures forall i :: 0 <= i < |ps| ==> 0 < ps[i].length
  {
    hide ConvertUnit, Start, Tiles;
    var r := ConvertUnit(pageSize, lbaSize, base, slba, nlblk);
    ConvertIsExact(pageSize, lbaSize, base, slba, nlblk);
    Distribute(slba, nlblk, lbaSize);
    var remain;
    ps, remain := SplitPages(pageSize, r);
  }
}
