/** Conservation: valid units in flash, counted block by block, are the mapped units of the table. */
module FtlCount {
  import opened FtlState
  import opened FtlRun

  type Place = (int, int, int)

  lemma {:induction false} ImageSize<A, B>(s: set<A>, t: set<B>, f: A -> B)
    requires forall x, y :: x in s && y in s && f(x) == f(y) ==> x == y
    requires t == set x | x in s :: f(x)
    ensures |t| == |s|
    decreases |s|
  {
    if s != {} {
      var x :| x in s;
      var s', t' := s - {x}, t - {f(x)};
      assert t' == set y | y in s' :: f(y);
      ImageSize(s', t', f);
      assert t == t' + {f(x)};
    }
  }

  /** The valid units of page p of block b. */
  ghost function RowPlaces(b: int, p: int, row: seq<Cell>): set<Place> {
    set u | 0 <= u < |row| && row[u].valid :: (b, p, u)
  }

  lemma {:induction false} RowPlacesSize(b: int, p: int, row: seq<Cell>)
    ensures |RowPlaces(b, p, row)| == RowCount(row)
    decreases |row|
  {
    if row == [] {
      assert RowPlaces(b, p, row) == {};
    } else {
      var n := |row| - 1;
      var prefix := row[..n];
      RowPlacesSize(b, p, prefix);
      assert RowPlaces(b, p, row) == RowPlaces(b, p, prefix) + if row[n].valid then {(b, p, n)} else {};
    }
  }

  ghost function BlockPlaces(b: int, cells: seq<seq<Cell>>): set<Place> {
    set p, u | 0 <= p < |cells| && 0 <= u < |cells[p]| && cells[p][u].valid :: (b, p, u)
  }

  lemma {:induction false} BlockPlacesSize(b: int, cells: seq<seq<Cell>>)
    ensures |BlockPlaces(b, cells)| == CellCount(cells)
    decreases |cells|
  {
    if cells == [] {
      assert BlockPlaces(b, cells) == {};
    } else {
      var n := |cells| - 1;
      BlockPlacesSize(b, cells[..n]);
      RowPlacesSize(b, n, cells[n]);
      assert BlockPlaces(b, cells) == BlockPlaces(b, cells[..n]) + RowPlaces(b, n, cells[n]);
    }
  }

  ghost function PoolPlaces(pool: seq<Block>): set<Place> {
    set b, p, u | 0 <= b < |pool| && 0 <= p < |pool[b].cells| && 0 <= u < |pool[b].cells[p]| &&
                  pool[b].cells[p][u].valid :: (b, p, u)
  }

  /** The sum of getValidPageCountRaw over all blocks. */
  function TotalRaw(pool: seq<Block>): nat {
    if pool == [] then 0 else TotalRaw(pool[..|pool| - 1]) + RawCount(pool[|pool| - 1])
  }

  lemma {:induction false} PoolPlacesSize(pool: seq<Block>)
    ensures |PoolPlaces(pool)| == TotalRaw(pool)
    decreases |pool|
  {
    if pool == [] {
      assert PoolPlaces(pool) == {};
    } else {
      var n := |pool| - 1;
      PoolPlacesSize(pool[..n]);
      BlockPlacesSize(n, pool[n].cells);
      assert PoolPlaces(pool) == PoolPlaces(pool[..n]) + BlockPlaces(n, pool[n].cells);
    }
  }

  /** The (LPN, unit) pairs the table maps. */
  ghost function MappedUnits(g: Geometry, f: Ftl): set<(nat, nat)> {
    set l, u | l in f.table && 0 <= u < |f.table[l]| && f.table[l][u] != g.Unmapped() :: (l, u)
  }

  ghost function Locate(f: Ftl, x: (nat, nat)): Place {
    if x.0 in f.table && x.1 < |f.table[x.0]|
    then (f.table[x.0][x.1].block, f.table[x.0][x.1].page, x.1)
    else (0, 0, x.1)
  }

  /** The table is a bijection between mapped units and valid units, so the two counts agree. */
  lemma ValidUnitsAreMappedUnits(g: Geometry, f: Ftl)
    requires Inv(g, f)
    ensures TotalRaw(f.pool) == |MappedUnits(g, f)|
  {
    var s, t := MappedUnits(g, f), PoolPlaces(f.pool);
    PoolPlacesSize(f.pool);
    forall x | x in s
      ensures Locate(f, x) in t
      ensures At(f.pool, Locate(f, x).0, Locate(f, x).1, Locate(f, x).2).lpn == x.0
    {
      var e := f.table[x.0][x.1];
      assert At(f.pool, e.block, e.page, x.1).valid;
    }
    forall y | y in t
      ensures exists x :: x in s && Locate(f, x) == y
    {
      assert At(f.pool, y.0, y.1, y.2).valid;
      var x: (nat, nat) := (At(f.pool, y.0, y.1, y.2).lpn, y.2);
      assert f.table[x.0][x.1] == Ppa(y.0, y.1);
      assert x in s && Locate(f, x) == y;
    }
    ImageSize(s, t, x => Locate(f, x));
  }
}
