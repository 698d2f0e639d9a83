/** A short run on a tiny device after which the translation layer cannot write any more. */
module FtlExamples {
  import opened Outcomes
  import opened FtlState
  import opened FtlSteps
  import opened FtlCollect
  import opened FtlRun

  // ----- garbage collection strands an active block ------------------------------------------------

  /** Four one-page blocks, two active slots, two units per page, no random-I/O tweak. */
  const Tiny := Geometry(4, 1, 2, 2, false, 10)

  const E: Cell := Cell(false, true, 0, [])
  const Clear: Block := Block([[E, E]], [0, 0], 0)
  const Both: seq<bool> := [true, true]

  const Opening: Ftl := Ftl([Clear, Clear, Clear, Clear], {0, 1}, [2, 3], map[], [0, 1], 0, [false, false], false)

  lemma TinyBlank()
    ensures BlankBlock(Tiny) == Clear
  {
    assert seq(2, _ => Cell(false, true, 0, [])) == [E, E];
    assert BlankBlock(Tiny).cells == [[E, E]];
    assert BlankBlock(Tiny).next == [0, 0];
  }

  const Unused: Ftl :=
    Ftl([Clear, Clear, Clear, Clear], {}, [0, 1, 2, 3], map[], [0, 0], 0, [false, false], false)

  lemma TinyUnopened()
    ensures Unopened(Tiny) == Unused
  {
    var f := Unopened(Tiny);
    TinyBlank();
    hide BlankBlock;
    assert f.pool == Unused.pool && f.free == Unused.free && f.active == [0, 0] && f.ioMap == [false, false];
  }

  lemma TinyFresh()
    ensures Fresh(Tiny) == Ok(Opening)
  {
    TinyUnopened();
    hide Unopened;
    var f, f1 := Unused, Unused.(used := {0}, free := [1, 2, 3]);
    assert PickFree(2, f.free, 0, 0) == 0;
    assert f.free[..0] + f.free[1..] == f1.free && f.active[0 := 0] == f.active && f.used + {0} == f1.used;
    assert TakeFree(Tiny, f, 0) == Ok(f1);
    assert PickFree(2, f1.free, 1, 0) == 0;
    assert f1.free[..0] + f1.free[1..] == Opening.free;
    assert f1.active[1 := 1] == Opening.active && f1.used + {1} == Opening.used;
    assert TakeFree(Tiny, f1, 1) == Ok(Opening);
  }

  /** One unit of data in page 0 of the block. */
  function Holding(image: Image, valid: bool): Block {
    Block([[Cell(valid, false, 0, image), E]], [1, 0], 0)
  }

  lemma ProgramClear(image: Image)
    ensures Programmed(Clear, 0, 0, 0, image) == Ok(Holding(image, true))
  {
    var blk := Holding(image, true);
    assert Clear.cells[0][0 := blk.cells[0][0]] == blk.cells[0];
    assert Clear.cells[0 := blk.cells[0]] == blk.cells && Clear.next[0 := 1] == blk.next;
  }

  /** After the first write. */
  const Written: Ftl :=
    Opening.(pool := [Clear, Holding([Some(7), Some(8)], true), Clear, Clear],
             table := map[0 := [Ppa(1, 0)]], cursor := 1, ioMap := Both)

  lemma TinyWrite()
    ensures Write(Tiny, Opening, 0, Both, [7, 8]) == Ok(Written)
  {
    var f1 := Enter(Tiny, Opening, 0);
    assert seq(1, _ => Tiny.Unmapped()) == [Ppa(4, 1)];
    assert f1.table == map[0 := [Ppa(4, 1)]];
    assert Fill([0, 0]) == 0;
    var f2 := f1.(cursor := 1, ioMap := Both);
    assert Acquire(Tiny, f1, Both) == Ok(f2);
    assert Merged(Tiny, f2, 0, 0, Both, [7, 8]) == [Some(7), Some(8)];
    ProgramClear([Some(7), Some(8)]);
    assert f2.table[0][0 := Ppa(1, 0)] == [Ppa(1, 0)];
    assert f2.pool[1 := Holding([Some(7), Some(8)], true)] == Written.pool;
    assert f2.table[0 := f2.table[0][0 := Ppa(1, 0)]] == Written.table;
    assert Program(f2, 1, 0, 0, [Some(7), Some(8)]) == Ok(Written);
  }

  const Spent: Block := Block([[E, E]], [0, 0], 1)

  /** After collecting block 1: its data is in block 0, and slot 1 still names block 1. */
  const Strand: Ftl :=
    Written.(pool := [Holding([Some(7), Some(8)], true), Spent, Clear, Clear], used := {0}, free := [2, 3, 1],
             table := map[0 := [Ppa(0, 0)]], cursor := 0)

  lemma TinyCollect()
    ensures Collect(Tiny, Written, [1]) == Ok(Strand)
  {
    var image: Image := [Some(7), Some(8)];
    var row := Written.pool[1].cells[0];
    assert PageMap(Tiny, row)[0];
    assert MoveBits(Tiny, row) == Both;
    assert Fill([0, 0]) == 0;
    var f1 := Written.(cursor := 0);
    assert Acquire(Tiny, Written, Both) == Ok(f1);
    var f2 := f1.(pool := [Clear, Holding(image, false), Clear, Clear]);
    assert row[0 := row[0].(valid := false)] == Holding(image, false).cells[0];
    assert f1.pool[1].cells[0 := Holding(image, false).cells[0]] == Holding(image, false).cells;
    assert f1.pool[1 := Holding(image, false)] == f2.pool;
    assert InvalidateAt(f1, 1, 0, 0) == Ok(f2);
    var blk := Holding(image, true);
    var f3 := f2.(pool := [blk, Holding(image, false), Clear, Clear], table := map[0 := [Ppa(0, 0)]]);
    ProgramClear(image);
    assert f2.table[0][0 := Ppa(0, 0)] == [Ppa(0, 0)];
    assert f2.pool[0 := blk] == f3.pool && f2.table[0 := f2.table[0][0 := Ppa(0, 0)]] == f3.table;
    assert Program(f2, 0, 0, 0, image) == Ok(f3);
    assert MoveFrom(Tiny, f1, 1, 0, row, Both, 0, 0) == MoveFrom(Tiny, f3, 1, 0, row, Both, 0, 1) == Ok(f3);
    assert CopyPage(Tiny, Written, 1, 0) == Ok(f3);
    assert CopyBlockFrom(Tiny, Written, 1, 0) == CopyBlockFrom(Tiny, f3, 1, 1) == Ok(f3);
    assert CopyVictims(Tiny, Written, [1], 0) == CopyVictims(Tiny, f3, [1], 1) == Ok(f3);
    assert Erased(f3.pool[1]) == Spent by {
      assert ErasedRow(f3.pool[1].cells[0]) == [ErasedCell(f3.pool[1].cells[0][0]), E];
      assert Erased(f3.pool[1]).next == [0, 0];
    }
    assert InsertAt(f3.pool, [2, 3], 1, 2) == 2;
    assert [2, 3][..2] + [1] + [2, 3][2..] == [2, 3, 1];
    assert f3.pool[1 := Spent] == Strand.pool && f3.used - {1} == Strand.used;
    assert EraseBlock(Tiny, f3, 1) == Ok(Strand);
    assert EraseVictims(Tiny, f3, [1], 0) == EraseVictims(Tiny, Strand, [1], 1) == Ok(Strand);
  }

  /** A write on a fresh device that fills its active block and then collects that very block (its only
      full one, so the greedy choice) leaves slot 1 without a block, and the next write panics. */
  lemma CollectionStrandsActiveBlock(lpn: nat, data: seq<Data>, victims: seq<nat>)
    requires |data| == 2
    ensures var k := Policy(0.75, Fixed(1));
            var first := WriteOp(0, Both, [7, 8], [1]);
            && Fresh(Tiny) == Ok(Opening)
            && Legal(Tiny, k, Opening, first)
            && Step(Tiny, k, Opening, first) == Ok(Strand)
            && Step(Tiny, k, Strand, WriteOp(lpn, Both, data, victims)) == Panic(Corrupted)
  {
    TinyFresh();
    TinyWrite();
    var w := Written.(reclaimMore := false);
    assert w == Written;
    TinyCollect();
    assert Both[0];
    assert LowOnBlocks(Tiny, Written, 0.75);
    assert Fill([1, 0][..1]) == 1;
    assert Fill([1, 0]) == 1 && Fill([0, 0]) == 0;
    assert Victims(Tiny, Written, [1]);
    assert Step(Tiny, Policy(0.75, Fixed(1)), Opening, WriteOp(0, Both, [7, 8], [1])) == Ok(Strand);
    StrandPanics(lpn, data);
  }

  lemma StrandPanics(lpn: nat, data: seq<Data>)
    requires |data| == 2
    ensures Write(Tiny, Strand, lpn, Both, data) == Panic(Corrupted)
  {
    if lpn in Strand.table {
      assert InvalidateFrom(Tiny, Strand, lpn, Both, 0).Ok?;
      assert InvalidateFrom(Tiny, Strand, lpn, Both, 0).value.active == Strand.active;
    }
  }

  // ----- trimming a partly written page ----------------------------------------------------------------

  /** Two one-page blocks, one active slot, two units per page that are mapped separately. */
  const Half := Geometry(2, 1, 2, 1, true, 10)

  const HalfOpening: Ftl := Ftl([Clear, Clear], {0}, [1], map[], [0], 0, [false, false], false)

  lemma HalfFresh()
    ensures Fresh(Half) == Ok(HalfOpening)
  {
    var f := Unopened(Half);
    assert BlankBlock(Half) == Clear by {
      assert seq(2, _ => Cell(false, true, 0, [])) == [E, E];
      assert BlankBlock(Half).cells == [[E, E]] && BlankBlock(Half).next == [0, 0];
    }
    assert f.pool == [Clear, Clear] && f.free == [0, 1] && f.active == [0] && f.ioMap == [false, false];
    assert PickFree(1, f.free, 0, 0) == 0;
    assert f.free[..0] + f.free[1..] == [1] && f.active[0 := 0] == [0] && f.used + {0} == {0};
    assert TakeFree(Half, f, 0) == Ok(HalfOpening);
  }

  const One: seq<bool> := [true, false]

  /** Only unit 0 of LPN 0 is mapped. */
  const HalfWritten: Ftl :=
    HalfOpening.(pool := [Holding([Some(7), None], true), Clear], table := map[0 := [Ppa(0, 0), Ppa(2, 1)]],
        ioMap := One)

  lemma HalfWrite()
    ensures Write(Half, HalfOpening, 0, One, [7, 8]) == Ok(HalfWritten)
  {
    var f1 := Enter(Half, HalfOpening, 0);
    assert seq(2, _ => Half.Unmapped()) == [Ppa(2, 1), Ppa(2, 1)];
    assert f1.table == map[0 := [Ppa(2, 1), Ppa(2, 1)]];
    assert Fill([0, 0]) == 0;
    assert OrBits([false, false], One) == One;
    var f2 := f1.(ioMap := One);
    assert Acquire(Half, f1, One) == Ok(f2);
    assert Merged(Half, f2, 0, 0, One, [7, 8]) == [Some(7), None];
    ProgramClear([Some(7), None]);
    assert f2.table[0][0 := Ppa(0, 0)] == [Ppa(0, 0), Ppa(2, 1)];
    assert f2.pool[0 := Holding([Some(7), None], true)] == HalfWritten.pool;
    assert f2.table[0 := f2.table[0][0 := Ppa(0, 0)]] == HalfWritten.table;
    assert Program(f2, 0, 0, 0, [Some(7), None]) == Ok(HalfWritten);
    assert ProgramFrom(Half, HalfWritten, 0, 0, One, [7, 8], 1) == Ok(HalfWritten);
  }

  /** Writing one unit of a page and then trimming the page panics, on a new device and without a collection. */
  lemma TrimOfPartlyWrittenPagePanics()
    ensures Fresh(Half) == Ok(HalfOpening)
    ensures var ops := [WriteOp(0, One, [7, 8], []), TrimOp(0)];
            Run(Half, Policy(0.0, Fixed(1)), HalfOpening, ops) == Panic(BlockNotInUse)
  {
    var k, first := Policy(0.0, Fixed(1)), WriteOp(0, One, [7, 8], []);
    HalfFresh();
    HalfWrite();
    hide Write;
    assert One[0];
    assert Step(Half, k, HalfOpening, first) == Ok(HalfWritten);
    assert Trim(Half, HalfWritten, 0) == Panic(BlockNotInUse);
    assert Run(Half, k, HalfWritten, [TrimOp(0)]) == Panic(BlockNotInUse);
    assert [first, TrimOp(0)][1..] == [TrimOp(0)];
  }
}
