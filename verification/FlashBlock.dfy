/** Block of ftl/common/block.cc, updated in place and proved against the block states of FtlSteps. */
module FlashBlocks {
  import opened Outcomes
  import opened FtlState
  import opened FtlSteps
  import opened FtlRun

  /** The pages with at least one valid unit. */
  function LivePages(cells: seq<seq<Cell>>): nat {
    if cells == [] then 0
    else LivePages(cells[..|cells| - 1]) + if AnyValid(cells[|cells| - 1]) then 1 else 0
  }

  lemma {:induction false} NoLivePages(cells: seq<seq<Cell>>)
    ensures LivePages(cells) != 0 <==> exists p :: 0 <= p < |cells| && AnyValid(cells[p])
    decreases |cells|
  {
    if cells != [] {
      NoLivePages(cells[..|cells| - 1]);
      assert forall p :: 0 <= p < |cells| - 1 ==> cells[p] == cells[..|cells| - 1][p];
    }
  }

  class FlashBlock {
    const idx: nat
    const pages: nat
    const units: nat
    var validBits: seq<seq<bool>>
    var erasedBits: seq<seq<bool>>
    var lpns: seq<seq<nat>>
    var next: seq<nat>
    var eraseCount: nat
    /** The host data in each unit; the simulator does not store it. */
    ghost var images: seq<seq<Image>>

    ghost predicate Valid()
      reads this
    {
      && |validBits| == |erasedBits| == |lpns| == |images| == pages
      && |next| == units
      && forall p :: 0 <= p < pages ==>
           |validBits[p]| == |erasedBits[p]| == |lpns[p]| == |images[p]| == units
    }

    ghost function CellOf(p: nat, u: nat): Cell
      requires Valid() && p < pages && u < units
      reads this
    {
      Cell(validBits[p][u], erasedBits[p][u], lpns[p][u], images[p][u])
    }

    ghost function RowOf(p: nat): (row: seq<Cell>)
      requires Valid() && p < pages
      reads this
      ensures |row| == units && forall u :: 0 <= u < units ==> row[u] == CellOf(p, u)
    {
      seq(units, u requires 0 <= u < units && Valid() reads this => CellOf(p, u))
    }

    /** The abstract block this object stands for. */
    ghost function State(): (b: Block)
      requires Valid()
      reads this
      ensures |b.cells| == pages && b.next == next && b.wear == eraseCount
      ensures forall p :: 0 <= p < pages ==> b.cells[p] == RowOf(p)
    {
      Block(seq(pages, p requires 0 <= p < pages && Valid() reads this => RowOf(p)), next, eraseCount)
    }

    constructor (idx: nat, pages: nat, units: nat)
      ensures Valid() && this.idx == idx && this.pages == pages && this.units == units
      ensures State() == Block(seq(pages, _ => seq(units, _ => Cell(false, true, 0, []))), seq(units, _ => 0), 0)
    {
      this.idx, this.pages, this.units := idx, pages, units;
      validBits := seq(pages, _ => seq(units, _ => false));
      erasedBits := seq(pages, _ => seq(units, _ => true));
      lpns := seq(pages, _ => seq(units, _ => 0));
      images := seq(pages, _ => seq(units, _ => []));
      next := seq(units, _ => 0);
      eraseCount := 0;
      new;
      assert forall p :: 0 <= p < pages ==> RowOf(p) == seq(units, _ => Cell(false, true, 0, []));
    }

    method Invalidate(p: nat, u: nat)
      requires Valid() && p < pages && u < units
      modifies this`validBits
      ensures Valid() && State() == Invalidated(old(State()), p, u)
    {
      validBits := validBits[p := validBits[p][u := false]];
      assert State().cells[p] == old(State()).cells[p][u := old(CellOf(p, u)).(valid := false)];
      assert forall q :: 0 <= q < pages && q != p ==> RowOf(q) == old(RowOf(q));
    }

    method Write(p: nat, lpn: nat, u: nat, ghost image: Image) returns (fault: Option<Fault>)
      requires Valid()
      modifies this`validBits, this`erasedBits, this`lpns, this`next, this`images
      ensures Valid()
      ensures match Programmed(old(State()), p, lpn, u, image)
              case Panic(why) => fault == Some(why) && State() == old(State())
              case Ok(b) => fault == None && State() == b
    {
      if p >= pages || u >= units { return Some(OutOfRange); }
      if !erasedBits[p][u] { return Some(NotErased); }
      if p < next[u] { return Some(NotSequential); }
      erasedBits := erasedBits[p := erasedBits[p][u := false]];
      validBits := validBits[p := validBits[p][u := true]];
      var row: seq<nat> := lpns[p][u := lpn];
      lpns := lpns[p := row];
      images := images[p := images[p][u := image]];
      next := next[u := p + 1];
      assert RowOf(p) == old(RowOf(p))[u := Cell(true, false, lpn, image)];
      assert forall q :: 0 <= q < pages && q != p ==> RowOf(q) == old(RowOf(q));
      return None;
    }

    method ClearValid()
      requires Valid()
      modifies this`validBits
      ensures Valid() && forall q :: 0 <= q < pages ==> validBits[q] == seq(units, _ => false)
    {
      for p := 0 to pages
        invariant Valid() && forall q :: 0 <= q < p ==> validBits[q] == seq(units, _ => false)
      {
        validBits := validBits[p := seq(units, _ => false)];
      }
    }

    method SetErased()
      requires Valid()
      modifies this`erasedBits
      ensures Valid() && forall q :: 0 <= q < pages ==> erasedBits[q] == seq(units, _ => true)
    {
      for p := 0 to pages
        invariant Valid() && forall q :: 0 <= q < p ==> erasedBits[q] == seq(units, _ => true)
      {
        erasedBits := erasedBits[p := seq(units, _ => true)];
      }
    }

    method Erase()
      requires Valid()
      modifies this`validBits, this`erasedBits, this`next, this`images, this`eraseCount
      ensures Valid() && State() == Erased(old(State()))
    {
      ClearValid();
      SetErased();
      next := seq(units, _ => 0);
      images := seq(pages, _ => seq(units, _ => []));
      eraseCount := eraseCount + 1;
      forall p | 0 <= p < pages
        ensures RowOf(p) == ErasedRow(old(RowOf(p)))
      {
        assert forall u :: 0 <= u < units ==> CellOf(p, u) == ErasedCell(old(CellOf(p, u)));
      }
    }

    /** The largest write pointer of any unit. */
    method GetNextWritePageIndex() returns (r: nat)
      requires Valid()
      ensures r == Fill(State().next)
    {
      r := 0;
      for i := 0 to units
        invariant r == Fill(next[..i])
      {
        assert next[..i + 1][..i] == next[..i];
        if r < next[i] { r := next[i]; }
      }
      assert next[..units] == next;
    }

    /** The page's live map and the LPNs of its units. */
    method GetPageInfo(g: Geometry, p: nat) returns (bits: seq<bool>, pageLpns: seq<nat>, live: bool)
      requires Valid() && p < pages && g.units == units && 1 <= units
      ensures bits == PageMap(g, State().cells[p])
      ensures live == AnyBit(bits)
      ensures |pageLpns| == units && forall u :: 0 <= u < units ==> pageLpns[u] == State().cells[p][u].lpn
    {
      bits := if units == 1 then [true] else validBits[p];
      pageLpns := lpns[p];
      live := true in bits;
      assert bits == PageMap(g, State().cells[p]);
    }

    /** How many pages have a valid unit. */
    method GetValidPageCount() returns (r: nat)
      requires Valid()
      ensures r == LivePages(State().cells)
    {
      r := 0;
      ghost var cells := State().cells;
      for p := 0 to pages
        invariant r == LivePages(cells[..p])
      {
        assert cells[..p + 1][..p] == cells[..p];
        assert AnyValid(cells[p]) <==> true in validBits[p] by {
          if true in validBits[p] {
            var u :| 0 <= u < units && validBits[p][u];
            assert cells[p][u].valid;
          }
        }
        if true in validBits[p] { r := r + 1; }
      }
      assert cells[..pages] == cells;
    }

    /** How many units are valid. */
    method GetValidPageCountRaw() returns (r: nat)
      requires Valid()
      ensures r == RawCount(State())
    {
      r := 0;
      ghost var cells := State().cells;
      for p := 0 to pages
        invariant r == CellCount(cells[..p])
      {
        var n := 0;
        for u := 0 to units
          invariant n == RowCount(cells[p][..u])
        {
          assert cells[p][..u + 1][..u] == cells[p][..u];
          if validBits[p][u] { n := n + 1; }
        }
        assert cells[p][..units] == cells[p];
        assert cells[..p + 1][..p] == cells[..p];
        r := r + n;
      }
      assert cells[..pages] == cells;
    }
  }
}
