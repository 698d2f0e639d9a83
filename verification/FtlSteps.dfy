/** The operations of ftl/page_mapping.cc on state values, one function per source routine. Each
    `panic` of the source, and each place where it would run off a container, is an explicit fault. */
module FtlSteps {
  import opened Outcomes
  import opened FtlState

  datatype Fault =
    | NoFreeBlock           // "No free block left"
    | Corrupted             // "Corrupted": the active block is not in use, or a fresh block is
    | BlockNotInUse         // "Block is not in use"
    | NotErased             // "Write to non erased page"
    | NotSequential         // "Write to block should sequential"
    | InvalidMapping        // "Invalid mapping table entry"
    | NoSuchBlock           // "Invalid block", "No such block"
    | VictimHoldsValidPages // "There are valid pages in victim block"
    | EmptyFreeList         // the reverse search of eraseInternal over an empty free list
    | OutOfRange            // an index outside its container

  type Result = Outcome<Ftl, Fault>

  // ----- Block (ftl/common/block.cc) -------------------------------------------------------------

  function SetCell(b: Block, p: nat, u: nat, c: Cell): Block
    requires p < |b.cells| && u < |b.cells[p]|
  {
    b.(cells := b.cells[p := b.cells[p][u := c]])
  }

  /** Block::invalidate */
  function Invalidated(b: Block, p: nat, u: nat): Block
    requires p < |b.cells| && u < |b.cells[p]|
  {
    SetCell(b, p, u, b.cells[p][u].(valid := false))
  }

  /** Block::write */
  function Programmed(b: Block, p: nat, lpn: nat, u: nat, image: Image): Outcome<Block, Fault> {
    if !(p < |b.cells| && u < |b.cells[p]| && u < |b.next|) then Panic(OutOfRange)
    else if !b.cells[p][u].erased then Panic(NotErased)
    else if p < b.next[u] then Panic(NotSequential)
    else Ok(SetCell(b, p, u, Cell(true, false, lpn, image)).(next := b.next[u := p + 1]))
  }

  function ErasedCell(c: Cell): Cell {
    c.(valid := false, erased := true, image := [])
  }

  function ErasedRow(row: seq<Cell>): (r: seq<Cell>) {
    seq(|row|, u requires 0 <= u < |row| => ErasedCell(row[u]))
  }

  /** Block::erase */
  function Erased(b: Block): Block {
    Block(seq(|b.cells|, p requires 0 <= p < |b.cells| => ErasedRow(b.cells[p])),
          seq(|b.next|, _ => 0),
          b.wear + 1)
  }

  predicate AnyBit(bits: seq<bool>) {
    exists u :: 0 <= u < |bits| && bits[u]
  }

  predicate AnyCommonBit(a: seq<bool>, b: seq<bool>) {
    exists u :: 0 <= u < |a| && u < |b| && a[u] && b[u]
  }

  function OrBits(a: seq<bool>, b: seq<bool>): seq<bool> {
    seq(|a|, u requires 0 <= u < |a| => a[u] || (u < |b| && b[u]))
  }

  /** The bit map of Block::getPageInfo. With a single unit per page the source reports the page as
      live whatever its valid bit says. */
  function PageMap(g: Geometry, row: seq<Cell>): seq<bool> {
    if g.units == 1 then [true]
    else seq(|row|, u requires 0 <= u < |row| => row[u].valid)
  }

  /** Block::getValidPageCount() != 0 */
  predicate HoldsValid(b: Block) {
    exists p :: 0 <= p < |b.cells| && AnyValid(b.cells[p])
  }

  predicate AnyValid(row: seq<Cell>) {
    exists u :: 0 <= u < |row| && row[u].valid
  }

  // ----- free and active blocks ------------------------------------------------------------------

  /** Position in the free list of the first block congruent to the slot, else of the first block. */
  function PickFree(slots: nat, free: seq<nat>, slot: nat, from: nat): (i: nat)
    requires 1 <= slots && 0 < |free| && from <= |free|
    ensures i < |free|
    decreases |free| - from
  {
    if from == |free| then 0
    else if free[from] % slots == slot then from
    else PickFree(slots, free, slot, from + 1)
  }

  /** getFreeBlock, and the store of its result into an active slot. */
  function TakeFree(g: Geometry, f: Ftl, slot: nat): Result {
    if slot >= |f.active| || slot >= g.slots then Panic(OutOfRange)
    else if |f.free| == 0 then Panic(NoFreeBlock)
    else
      var i := PickFree(g.slots, f.free, slot, 0);
      if f.free[i] in f.used then Panic(Corrupted)
      else Ok(f.(used := f.used + {f.free[i]},
                 free := f.free[..i] + f.free[i + 1..],
                 active := f.active[slot := f.free[i]]))
  }

  /** lastFreeBlockIndex and lastFreeBlockIOMap. */
  datatype Wheel = Wheel(cursor: nat, ioMap: seq<bool>)

  /** How a request moves to the next active slot: always without the random-I/O tweak, with it only
      when a requested unit was already used at the current slot. */
  function Spin(g: Geometry, w: Wheel, ioMap: seq<bool>): Wheel {
    if !g.tweak || AnyCommonBit(w.ioMap, ioMap)
    then Wheel(if w.cursor + 1 == g.slots then 0 else w.cursor + 1, ioMap)
    else w.(ioMap := OrBits(w.ioMap, ioMap))
  }

  function WheelOf(f: Ftl): Wheel {
    Wheel(f.cursor, f.ioMap)
  }

  /** The cursor and I/O-map part of getLastFreeBlock. */
  function Rotate(g: Geometry, f: Ftl, ioMap: seq<bool>): Ftl {
    var w := Spin(g, WheelOf(f), ioMap);
    f.(cursor := w.cursor, ioMap := w.ioMap)
  }

  /** getLastFreeBlock. The destination block is `active[cursor]` of the result. */
  function Acquire(g: Geometry, f: Ftl, ioMap: seq<bool>): Result {
    var f1 := Rotate(g, f, ioMap);
    if f1.cursor >= |f1.active| then Panic(OutOfRange)
    else if f1.active[f1.cursor] !in f1.used then Panic(Corrupted)
    else if f1.active[f1.cursor] >= |f1.pool| then Panic(OutOfRange)
    else if Full(g, f1.pool[f1.active[f1.cursor]]) then
      var f2 :- TakeFree(g, f1, f1.cursor);
      Ok(f2.(reclaimMore := true))
    else Ok(f1)
  }

  // ----- write (writeInternal) -------------------------------------------------------------------

  predicate InRange(g: Geometry, e: Ppa) {
    e.block < g.total && e.page < g.pages
  }

  /** Block::invalidate on a block found through `blocks`. */
  function InvalidateAt(f: Ftl, b: nat, p: nat, u: nat): Result {
    if b !in f.used then Panic(BlockNotInUse)
    else if !(b < |f.pool| && p < |f.pool[b].cells| && u < |f.pool[b].cells[p]|) then Panic(OutOfRange)
    else Ok(f.(pool := f.pool[b := Invalidated(f.pool[b], p, u)]))
  }

  /** Program unit u of block b at its write pointer and point the table at it. */
  function Program(f: Ftl, b: nat, lpn: nat, u: nat, image: Image): Result {
    if lpn !in f.table then Panic(InvalidMapping)
    else if !(b < |f.pool| && u < |f.pool[b].next| && u < |f.table[lpn]|) then Panic(OutOfRange)
    else
      var p := f.pool[b].next[u];
      var blk :- Programmed(f.pool[b], p, lpn, u, image);
      Ok(f.(pool := f.pool[b := blk], table := f.table[lpn := f.table[lpn][u := Ppa(b, p)]]))
  }

  /** The data a write leaves in unit u: the flagged host units are new, the others are what the
      old location of the mapping held. */
  function Merged(g: Geometry, f: Ftl, lpn: nat, u: nat, flags: seq<bool>, data: seq<Data>): Image
    requires |flags| == |data| == g.units
  {
    var before := if lpn in f.table && u < |f.table[lpn]| && InRange(g, f.table[lpn][u])
               then At(f.pool, f.table[lpn][u].block, f.table[lpn][u].page, u).image else [];
    seq(g.units, i requires 0 <= i < g.units && |flags| == |data| == g.units =>
      if flags[i] then Some(data[i]) else Sub(before, i))
  }

  /** Invalidate the selected units u, u + 1, ... of an LPN. */
  function InvalidateFrom(g: Geometry, f: Ftl, lpn: nat, flags: seq<bool>, u: nat): Result
    decreases g.Mapped() - u
  {
    if u >= g.Mapped() then Ok(f)
    else if !g.Selects(flags, u) then InvalidateFrom(g, f, lpn, flags, u + 1)
    else if !(lpn in f.table && u < |f.table[lpn]|) then Panic(OutOfRange)
    else if !InRange(g, f.table[lpn][u]) then InvalidateFrom(g, f, lpn, flags, u + 1)
    else
      var f1 :- InvalidateAt(f, f.table[lpn][u].block, f.table[lpn][u].page, u);
      InvalidateFrom(g, f1, lpn, flags, u + 1)
  }

  /** Program the selected units u, u + 1, ... of an LPN into block b. */
  function ProgramFrom(g: Geometry, f: Ftl, b: nat, lpn: nat, flags: seq<bool>, data: seq<Data>, u: nat): Result
    requires |flags| == |data| == g.units
    decreases g.Mapped() - u
  {
    if u >= g.Mapped() then Ok(f)
    else if !g.Selects(flags, u) then ProgramFrom(g, f, b, lpn, flags, data, u + 1)
    else
      var f1 :- Program(f, b, lpn, u, Merged(g, f, lpn, u, flags, data));
      ProgramFrom(g, f1, b, lpn, flags, data, u + 1)
  }

  function Enter(g: Geometry, f: Ftl, lpn: nat): Ftl {
    f.(table := f.table[lpn := seq(g.Mapped(), _ => g.Unmapped())])
  }

  /** writeInternal up to the garbage-collection test. */
  function Write(g: Geometry, f: Ftl, lpn: nat, flags: seq<bool>, data: seq<Data>): Result
    requires |flags| == |data| == g.units
  {
    var f1 :- if lpn in f.table then InvalidateFrom(g, f, lpn, flags, 0) else Ok(Enter(g, f, lpn));
    var f2 :- Acquire(g, f1, flags);
    ProgramFrom(g, f2, f2.active[f2.cursor], lpn, flags, data, 0)
  }

  // ----- trim (trimInternal) -----------------------------------------------------------------------

  function TrimFrom(g: Geometry, f: Ftl, lpn: nat, u: nat): Result
    decreases g.Mapped() - u
  {
    if u >= g.Mapped() then Ok(f)
    else if !(lpn in f.table && u < |f.table[lpn]|) then Panic(OutOfRange)
    else
      var f1 :- InvalidateAt(f, f.table[lpn][u].block, f.table[lpn][u].page, u);
      TrimFrom(g, f1, lpn, u + 1)
  }

  function Trim(g: Geometry, f: Ftl, lpn: nat): Result {
    if lpn !in f.table then Ok(f)
    else
      var f1 :- TrimFrom(g, f, lpn, 0);
      Ok(f1.(table := f1.table - {lpn}))
  }

  // ----- garbage collection (doGarbageCollection, eraseInternal) -----------------------------------

  /** Move units u, u + 1, ... of one victim page whose bit is set into block d. `row` is the page as
      getPageInfo captured it before the first move. */
  function MoveFrom(g: Geometry, f: Ftl, v: nat, p: nat, row: seq<Cell>, bits: seq<bool>, d: nat, u: nat): Result
    decreases g.Mapped() - u
  {
    if u >= g.Mapped() then Ok(f)
    else if !(u < |bits| && u < |row|) then Panic(OutOfRange)
    else if !bits[u] then MoveFrom(g, f, v, p, row, bits, d, u + 1)
    else
      var f1 :- InvalidateAt(f, v, p, u);
      var f2 :- Program(f1, d, row[u].lpn, u, row[u].image);
      MoveFrom(g, f2, v, p, row, bits, d, u + 1)
  }

  /** The bits getLastFreeBlock is asked for: all of them without the random-I/O tweak. */
  function MoveBits(g: Geometry, row: seq<Cell>): seq<bool> {
    if g.tweak then PageMap(g, row) else seq(g.units, _ => true)
  }

  function CopyPage(g: Geometry, f: Ftl, v: nat, p: nat): Result {
    if v !in f.used then Panic(NoSuchBlock)
    else if !(v < |f.pool| && p < |f.pool[v].cells|) then Panic(OutOfRange)
    else
      var row := f.pool[v].cells[p];
      if !AnyBit(PageMap(g, row)) then Ok(f)
      else
        var bits := MoveBits(g, row);
        var f1 :- Acquire(g, f, bits);
        MoveFrom(g, f1, v, p, row, bits, f1.active[f1.cursor], 0)
  }

  function CopyBlockFrom(g: Geometry, f: Ftl, v: nat, p: nat): Result
    decreases g.pages - p
  {
    if p >= g.pages then Ok(f)
    else
      var f1 :- CopyPage(g, f, v, p);
      CopyBlockFrom(g, f1, v, p + 1)
  }

  function CopyVictims(g: Geometry, f: Ftl, victims: seq<nat>, i: nat): Result
    decreases |victims| - i
  {
    if i >= |victims| then Ok(f)
    else
      var f1 :- CopyBlockFrom(g, f, victims[i], 0);
      CopyVictims(g, f1, victims, i + 1)
  }

  /** Where the reverse search inserts a block of the given wear. */
  function InsertAt(pool: seq<Block>, free: seq<nat>, wear: nat, i: nat): (r: nat)
    requires i <= |free|
    requires forall k :: 0 <= k < |free| ==> free[k] < |pool|
    ensures r <= i
    ensures forall k :: r <= k < i ==> wear < pool[free[k]].wear
    ensures r == 0 || pool[free[r - 1]].wear <= wear
  {
    if i == 0 then 0
    else if pool[free[i - 1]].wear <= wear then i
    else InsertAt(pool, free, wear, i - 1)
  }

  /** eraseInternal: a block below the bad-block threshold goes back to the free list, a worn one is
      retired. */
  function EraseBlock(g: Geometry, f: Ftl, v: nat): Result {
    if v !in f.used then Panic(NoSuchBlock)
    else if !(v < |f.pool| && forall k :: 0 <= k < |f.free| ==> f.free[k] < |f.pool|) then Panic(OutOfRange)
    else if HoldsValid(f.pool[v]) then Panic(VictimHoldsValidPages)
    else
      var blk := Erased(f.pool[v]);
      var f1 := f.(pool := f.pool[v := blk], used := f.used - {v});
      if blk.wear >= g.worn then Ok(f1)
      else if |f.free| == 0 then Panic(EmptyFreeList)
      else
        var i := InsertAt(f.pool, f.free, blk.wear, |f.free|);
        Ok(f1.(free := f.free[..i] + [v] + f.free[i..]))
  }

  function EraseVictims(g: Geometry, f: Ftl, victims: seq<nat>, i: nat): Result
    decreases |victims| - i
  {
    if i >= |victims| then Ok(f)
    else
      var f1 :- EraseBlock(g, f, victims[i]);
      EraseVictims(g, f1, victims, i + 1)
  }

  /** doGarbageCollection */
  function Collect(g: Geometry, f: Ftl, victims: seq<nat>): Result {
    var f1 :- CopyVictims(g, f, victims, 0);
    EraseVictims(g, f1, victims, 0)
  }
}
