/** State of the page-mapping translation layer (ftl/page_mapping.hh, ftl/common/block.hh) as values.

    Every physical unit carries an `image`: the host data last programmed into it. The simulator
    itself stores no data; the images exist so that what the host reads back can be stated. An image
    has one entry for each unit of a superpage. With the random-I/O tweak only entry `u` of the image
    in unit `u` is ever read; without it, unit 0 stands for the whole superpage.
 */
module FtlState {
  import opened Outcomes

  type Data = int
  type Image = seq<Option<Data>>

  /** Physical page address, `(totalPhysicalBlocks, pagesInBlock)` when unmapped. */
  datatype Ppa = Ppa(block: nat, page: nat)

  /** One I/O unit of one physical page. */
  datatype Cell = Cell(valid: bool, erased: bool, lpn: nat, image: Image)

  /** `cells[page][unit]`, the write pointer of every unit, and the erase count. */
  datatype Block = Block(cells: seq<seq<Cell>>, next: seq<nat>, wear: nat)

  /** totalPhysicalBlocks, pagesInBlock, ioUnitInPage, pageCountToMaxPerf, bRandomTweak and the
      bad-block threshold. */
  datatype Geometry = Geometry(total: nat, pages: nat, units: nat, slots: nat, tweak: bool, worn: nat) {
    predicate Valid() {
      && 1 <= pages
      && 1 <= units
      && 1 <= slots <= total
    }

    /** bitsetSize: how many units of a page are mapped separately. */
    function Mapped(): nat {
      if tweak then units else 1
    }

    function Unmapped(): Ppa {
      Ppa(total, pages)
    }

    /** The units a request with these flags touches. */
    predicate Selects(flags: seq<bool>, u: nat) {
      u < Mapped() && (!tweak || (u < |flags| && flags[u]))
    }
  }

  /** `pool[i]` is physical block i wherever it currently lives: `used` are the keys of `blocks`,
      `free` is the wear-sorted list `freeBlocks`, the rest are retired. `active`, `cursor` and
      `ioMap` are lastFreeBlock, lastFreeBlockIndex and lastFreeBlockIOMap. */
  datatype Ftl = Ftl(
    pool: seq<Block>,
    used: set<nat>,
    free: seq<nat>,
    table: map<nat, seq<Ppa>>,
    active: seq<nat>,
    cursor: nat,
    ioMap: seq<bool>,
    reclaimMore: bool)

  const NoCell := Cell(false, false, 0, [])

  /** Unit u of page p of block b; a blank cell outside the device. */
  function At(pool: seq<Block>, b: int, p: int, u: int): Cell {
    if 0 <= b < |pool| && 0 <= p < |pool[b].cells| && 0 <= u < |pool[b].cells[p]|
    then pool[b].cells[p][u]
    else NoCell
  }

  function Sub(image: Image, u: nat): Option<Data> {
    if u < |image| then image[u] else None
  }

  /** getNextWritePageIndex(): the largest write pointer of the block's units. */
  function Fill(next: seq<nat>): (r: nat)
    ensures forall u :: 0 <= u < |next| ==> next[u] <= r
    ensures r == 0 || r in next
  {
    if |next| == 0 then 0
    else
      var rest := Fill(next[..|next| - 1]);
      assert next == next[..|next| - 1] + [next[|next| - 1]];
      if rest < next[|next| - 1] then next[|next| - 1] else rest
  }

  predicate Full(g: Geometry, b: Block) {
    Fill(b.next) == g.pages
  }

  // ----- the invariant -------------------------------------------------------------------------

  /** Unit u of page p is erased exactly when p is at or beyond the unit's write pointer, and an
      erased unit is never valid. */
  ghost predicate Disciplined(g: Geometry, b: Block) {
    && |b.cells| == g.pages
    && |b.next| == g.units
    && (forall p :: 0 <= p < g.pages ==> |b.cells[p]| == g.units)
    && (forall u :: 0 <= u < g.units ==> b.next[u] <= g.pages)
    && (forall p, u :: 0 <= p < g.pages && 0 <= u < g.units ==>
          (b.cells[p][u].erased <==> b.next[u] <= p))
    && (forall p, u :: 0 <= p < g.pages && 0 <= u < g.units && b.cells[p][u].erased ==>
          !b.cells[p][u].valid)
  }

  ghost predicate Blank(b: Block) {
    forall u :: 0 <= u < |b.next| ==> b.next[u] == 0
  }

  ghost predicate Distinct<T(!new)>(s: seq<T>) {
    forall i, j :: 0 <= i < j < |s| ==> s[i] != s[j]
  }

  ghost predicate SortedByWear(pool: seq<Block>, s: seq<nat>)
    requires forall i :: 0 <= i < |s| ==> s[i] < |pool|
  {
    forall i, j :: 0 <= i < j < |s| ==> pool[s[i]].wear <= pool[s[j]].wear
  }

  ghost predicate Shape(g: Geometry, f: Ftl) {
    && g.Valid()
    && |f.pool| == g.total
    && (forall b :: 0 <= b < g.total ==> Disciplined(g, f.pool[b]))
    && |f.active| == g.slots
    && f.cursor < g.slots
    && (forall s :: 0 <= s < g.slots ==> f.active[s] < g.total)
  }

  /** In-use, free and retired blocks partition the device; free blocks are blank and sorted. */
  ghost predicate Partition(g: Geometry, f: Ftl)
    requires |f.pool| == g.total
  {
    && (forall b :: b in f.used ==> b < g.total)
    && (forall i :: 0 <= i < |f.free| ==> f.free[i] < g.total && f.free[i] !in f.used)
    && Distinct(f.free)
    && (forall b :: 0 <= b < g.total && b !in f.used && b !in f.free ==> g.worn <= f.pool[b].wear)
    && (forall i :: 0 <= i < |f.free| ==> Blank(f.pool[f.free[i]]))
    && SortedByWear(f.pool, f.free)
  }

  /** Table to flash: a mapped entry points at an in-use block and at a valid unit that carries the
      entry's own LPN. The units in `holes` are exempt: they were invalidated and await their write. */
  ghost predicate Forward(g: Geometry, f: Ftl, holes: set<(nat, nat)>) {
    && (forall l :: l in f.table ==> |f.table[l]| == g.Mapped())
    && (forall l, u :: l in f.table && 0 <= u < |f.table[l]| && (l, u) !in holes &&
                       f.table[l][u] != g.Unmapped() ==>
          var e := f.table[l][u];
          && e.block in f.used
          && At(f.pool, e.block, e.page, u).valid
          && At(f.pool, e.block, e.page, u).lpn == l)
  }

  /** Flash to table: a valid unit lies in an in-use block and is exactly what the table records for
      the LPN it carries. */
  ghost predicate Backward(g: Geometry, f: Ftl, holes: set<(nat, nat)>) {
    forall b, p, u :: At(f.pool, b, p, u).valid ==>
      var l := At(f.pool, b, p, u).lpn;
      && b in f.used
      && u < g.Mapped()
      && l in f.table
      && |f.table[l]| == g.Mapped()
      && f.table[l][u] == Ppa(b, p)
      && (l, u) !in holes
  }

  ghost predicate Consistent(g: Geometry, f: Ftl, holes: set<(nat, nat)>) {
    && Shape(g, f)
    && Partition(g, f)
    && Forward(g, f, holes)
    && Backward(g, f, holes)
  }

  /** Holds in every reachable state. */
  ghost predicate Inv(g: Geometry, f: Ftl) {
    Consistent(g, f, {})
  }

  /** Every active slot names its own in-use block. */
  ghost predicate Healthy(f: Ftl) {
    && Distinct(f.active)
    && (forall s :: 0 <= s < |f.active| ==> f.active[s] in f.used)
  }

  // ----- what the host sees --------------------------------------------------------------------

  type Host = map<nat, seq<Option<Data>>>

  /** What a read of unit u of a mapped LPN returns. */
  function Seen(g: Geometry, f: Ftl, l: nat, u: nat): Option<Data>
    requires l in f.table && |f.table[l]| == g.Mapped()
    requires u < g.units && 1 <= g.Mapped()
  {
    var m := if g.tweak then u else 0;
    var e := f.table[l][m];
    if e == g.Unmapped() then None else Sub(At(f.pool, e.block, e.page, m).image, u)
  }

  ghost function View(g: Geometry, f: Ftl): (h: Host)
    requires g.Valid() && forall l :: l in f.table ==> |f.table[l]| == g.Mapped()
  {
    map l | l in f.table :: seq(g.units, u requires 0 <= u < g.units => Seen(g, f, l, u))
  }
}
