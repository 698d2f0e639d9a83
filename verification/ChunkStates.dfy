/** The chunk state machine of the Open-Channel SSD 2.0 model (hil/nvme/ocssd.cc). */
module ChunkStates {
  import opened Arithmetic
  import opened Bits
  import A = OpenChannelAddress

  datatype State = Free | Closed | Open | Offline

  datatype Chunk = Chunk(state: State, writePointer: nat)

  /** Blocks in one write, and pages in a chunk. */
  datatype Sizes = Sizes(writeSize: nat, pages: nat) {
    predicate Valid() {
      0 < writeSize && 0 < pages
    }

    function End(): nat {
      pages * writeSize
    }
  }

  const Fresh: Chunk := Chunk(Free, 0)

  /** A page of a chunk, given by its position in the descriptor table. */
  datatype Update = Update(chunk: nat, page: nat)

  // ----- one chunk ---------------------------------------------------------------------------------------------

  /** The state says where the write pointer is. */
  predicate Matches(z: Sizes, c: Chunk) {
    && (c.state == Free <==> c.writePointer == 0)
    && (c.state == Closed <==> c.writePointer == z.End())
    && (c.state == Open <==> 0 < c.writePointer < z.End())
  }

  predicate Increasing(h: seq<nat>) {
    forall i, j :: 0 <= i < j < |h| ==> h[i] < h[j]
  }

  /** h: the pages accepted since the last reset. Pages beyond the end of the chunk are accepted, too. */
  ghost predicate Tracks(z: Sizes, c: Chunk, h: seq<nat>) {
    && Increasing(h)
    && c == if h == [] then Fresh else Chunk(if h[|h| - 1] == z.pages - 1 then Closed else Open,
        (h[|h| - 1] + 1) * z.writeSize)
  }

  /** All pages accepted are inside the chunk. */
  predicate Within(z: Sizes, h: seq<nat>) {
    forall i :: 0 <= i < |h| ==> h[i] < z.pages
  }

  predicate Refuses(z: Sizes, c: Chunk, page: nat)
    requires z.Valid()
  {
    c.state == Offline || c.state == Closed || (c.state == Open && c.writePointer / z.writeSize > page)
  }

  function Written(z: Sizes, page: nat): Chunk
    requires z.Valid()
  {
    Chunk(if page == z.pages - 1 then Closed else Open, (page + 1) * z.writeSize)
  }

  lemma PointerCompare(z: Sizes, m: nat, n: nat)
    requires z.Valid()
    ensures m * z.writeSize < n * z.writeSize <==> m < n
    ensures m * z.writeSize / z.writeSize == m
    ensures m * z.writeSize == n * z.writeSize <==> m == n
  {
    BelowIff(m, 0, z.writeSize, n);
    BelowIff(n, 0, z.writeSize, m);
    Combine(z.writeSize, m, 0);
  }

  /** The state of a chunk agrees with its write pointer exactly if every page accepted is inside the chunk. */
  lemma MatchesIffWithin(z: Sizes, c: Chunk, h: seq<nat>)
    requires z.Valid() && Tracks(z, c, h)
    ensures Matches(z, c) <==> Within(z, h)
    ensures c.state != Offline && (c.state == Free <==> h == [])
  {
    PointerCompare(z, 0, z.pages);
    if h != [] {
      var last := h[|h| - 1];
      PointerCompare(z, 0, last + 1);
      PointerCompare(z, last + 1, z.pages);
      PointerCompare(z, z.pages, last + 1);
    }
  }

  /** An accepted page lies behind all pages accepted before. */
  lemma WriteTracks(z: Sizes, c: Chunk, h: seq<nat>, page: nat)
    requires z.Valid() && Tracks(z, c, h) && !Refuses(z, c, page)
    ensures Tracks(z, Written(z, page), h + [page])
  {
    if h != [] { PointerCompare(z, h[|h| - 1] + 1, page + 1); }
  }

  /** What may follow the pages h: anything on a new chunk, then only pages behind the last one, and nothing after the
      last page of the chunk. */
  predicate MayFollow(z: Sizes, h: seq<nat>, page: nat) {
    h == [] || (h[|h| - 1] != z.pages - 1 && h[|h| - 1] < page)
  }

  /** A chunk accepts exactly those pages. */
  lemma AcceptsIff(z: Sizes, c: Chunk, h: seq<nat>, page: nat)
    requires z.Valid() && Tracks(z, c, h)
    ensures !Refuses(z, c, page) <==> MayFollow(z, h, page)
  {
    if h != [] { PointerCompare(z, h[|h| - 1] + 1, page); }
  }

  // ----- sequential writes ----------------------------------------------------------------------------------------

  /** The pages 0, 1, 2, ... without a gap. */
  predicate Contiguous(h: seq<nat>) {
    forall i :: 0 <= i < |h| ==> h[i] == i
  }

  /** An accepted page continues without a gap exactly if it is the page at the write pointer. */
  lemma NoGapIffAtPointer(z: Sizes, c: Chunk, h: seq<nat>, page: nat)
    requires z.Valid() && Tracks(z, c, h) && Contiguous(h)
    ensures Contiguous(h + [page]) <==> page * z.writeSize == c.writePointer
  {
    var n := |h|;
    PointerCompare(z, page, n);
    assert n > 0 ==> h[n - 1] == n - 1;
    assert (h + [page])[n] == page;
  }

  /** Although chunks are declared to be written sequentially, a new chunk accepts page 1 and leaves page 0 out. */
  lemma FreshChunkAcceptsGap(z: Sizes)
    requires z.Valid()
    ensures !Refuses(z, Fresh, 1) && Tracks(z, Fresh, []) && Tracks(z, Written(z, 1), [1])
    ensures Contiguous([]) && !Contiguous([1]) && Refuses(z, Written(z, 1), 0)
  {
    hide Tracks;
    FreshTracks(z);
    assert [] + [1] == [1];
    WriteTracks(z, Fresh, [], 1);
    assert [1][0] == 1;
    GapIsFinal(z);
  }

  /** A new chunk also accepts the page behind its last one; its state then disagrees with its write pointer. */
  lemma FreshChunkAcceptsPageBeyondEnd(z: Sizes)
    requires z.Valid()
    ensures !Refuses(z, Fresh, z.pages) && Matches(z, Fresh) && !Matches(z, Written(z, z.pages))
  {
    hide Matches, Tracks;
    FreshTracks(z);
    assert [] + [z.pages] == [z.pages];
    WriteTracks(z, Fresh, [], z.pages);
    MatchesIffWithin(z, Fresh, []);
    MatchesIffWithin(z, Written(z, z.pages), [z.pages]);
    assert [z.pages][0] == z.pages;
  }

  lemma FreshTracks(z: Sizes)
    ensures Tracks(z, Fresh, [])
  {
  }

  lemma GapIsFinal(z: Sizes)
    requires z.Valid()
    ensures Refuses(z, Written(z, 1), 0)
  {
    PointerCompare(z, 1 + 1, 0);
  }

  /** Blocks of an address beyond the end of a chunk are kept out by the width of their field exactly if the chunk
      size is a power of two. */
  lemma FieldStaysInsideIff(z: Sizes, w: nat)
    requires z.Valid() && A.IsWidth(z.End(), w)
    ensures (forall l: nat :: l < Pow2(w) ==> l / z.writeSize < z.pages) <==> z.End() == Pow2(w)
  {
    if z.End() == Pow2(w) {
      forall l: nat | l < Pow2(w)
        ensures l / z.writeSize < z.pages
      {
        QuotientBelow(l, z.writeSize, z.pages);
      }
    } else {
      Combine(z.writeSize, z.pages, 0);
      assert z.End() < Pow2(w) && z.End() / z.writeSize == z.pages;
    }
  }

  // ----- commands -----------------------------------------------------------------------------------------------

  /** The table after a command, which entries were kept without an error, and whether an error was met. */
  datatype Result = Result(table: seq<Chunk>, kept: seq<bool>, err: bool)

  /** Entries with an error are taken off the list by a mask of 64 bits, so a later entry reaches the flash even
      then. */
  predicate ToFlash(kept: seq<bool>, i: nat)
    requires i < |kept|
  {
    kept[i] || 64 <= i
  }

  predicate Known(t: seq<Chunk>, us: seq<Update>) {
    forall i :: 0 <= i < |us| ==> us[i].chunk < |t|
  }

  /** The loop of writeInternal: after the first refused page nothing more is accepted. */
  function WriteAll(z: Sizes, t: seq<Chunk>, us: seq<Update>): (r: Result)
    requires z.Valid() && Known(t, us)
    ensures |r.table| == |t| && |r.kept| == |us|
  {
    if us == [] then Result(t, [], false)
    else
      var n := |us| - 1;
      var r := WriteAll(z, t, us[..n]);
      var u := us[n];
      if r.err || Refuses(z, r.table[u.chunk], u.page) then Result(r.table, r.kept + [false], true)
      else Result(r.table[u.chunk := Written(z, u.page)], r.kept + [true], false)
  }

  /** The loop of eraseInternal: a closed chunk is reset whatever happened before it, but once an error was met
      no later entry reaches the flash. */
  function EraseAll(t: seq<Chunk>, cs: seq<nat>): (r: Result)
    requires forall i :: 0 <= i < |cs| ==> cs[i] < |t|
    ensures |r.table| == |t| && |r.kept| == |cs|
  {
    if cs == [] then Result(t, [], false)
    else
      var n := |cs| - 1;
      var r := EraseAll(t, cs[..n]);
      var c := cs[n];
      var err := r.err || r.table[c].state != Closed;
      Result(if r.table[c].state == Closed then r.table[c := Fresh] else r.table, r.kept + [!err], err)
  }

  /** Pages accepted since the last reset, for each chunk. */
  function Accepted(h: seq<seq<nat>>, us: seq<Update>, kept: seq<bool>): (r: seq<seq<nat>>)
    requires |kept| == |us| && forall i :: 0 <= i < |us| ==> us[i].chunk < |h|
    ensures |r| == |h|
  {
    if us == [] then h
    else
      var n := |us| - 1;
      var r := Accepted(h, us[..n], kept[..n]);
      if kept[n] then r[us[n].chunk := r[us[n].chunk] + [us[n].page]] else r
  }

  ghost predicate AllTrack(z: Sizes, t: seq<Chunk>, h: seq<seq<nat>>) {
    |t| == |h| && forall i :: 0 <= i < |t| ==> Tracks(z, t[i], h[i])
  }

  /** What a write command leaves: every chunk in agreement with the pages that were accepted. */
  lemma {:induction false} WriteAllKeeps(z: Sizes, t: seq<Chunk>, h: seq<seq<nat>>, us: seq<Update>)
    requires z.Valid() && AllTrack(z, t, h) && Known(t, us)
    ensures AllTrack(z, WriteAll(z, t, us).table, Accepted(h, us, WriteAll(z, t, us).kept))
    decreases |us|
  {
    hide Tracks, Refuses, Written;
    if us != [] {
      var n := |us| - 1;
      WriteAllKeeps(z, t, h, us[..n]);
      var r, u := WriteAll(z, t, us[..n]), us[n];
      var h' := Accepted(h, us[..n], r.kept);
      assert WriteAll(z, t, us).kept[..n] == r.kept;
      if !(r.err || Refuses(z, r.table[u.chunk], u.page)) {
        WriteTracks(z, r.table[u.chunk], h'[u.chunk], u.page);
      }
    }
  }

  ghost predicate AllContiguous(h: seq<seq<nat>>) {
    forall i :: 0 <= i < |h| ==> Contiguous(h[i])
  }

  /** Every accepted page of a write command is the page at the write pointer at its turn. */
  ghost predicate Sequential(z: Sizes, t: seq<Chunk>, us: seq<Update>)
    requires z.Valid() && Known(t, us)
    decreases |us|
  {
    us != [] ==>
      var n := |us| - 1;
      && Sequential(z, t, us[..n])
      && (WriteAll(z, t, us).kept[n] ==>
            us[n].page * z.writeSize == WriteAll(z, t, us[..n]).table[us[n].chunk].writePointer)
  }

  /** A write command leaves no gap exactly if it is sequential. */
  lemma {:induction false} WriteLeavesNoGapIff(z: Sizes, t: seq<Chunk>, h: seq<seq<nat>>, us: seq<Update>)
    requires z.Valid() && AllTrack(z, t, h) && Known(t, us) && AllContiguous(h)
    ensures AllContiguous(Accepted(h, us, WriteAll(z, t, us).kept)) <==> Sequential(z, t, us)
    decreases |us|
  {
    hide Tracks, Refuses, Written, Contiguous;
    if us != [] {
      var n := |us| - 1;
      WriteLeavesNoGapIff(z, t, h, us[..n]);
      WriteAllKeeps(z, t, h, us[..n]);
      var r, u := WriteAll(z, t, us[..n]), us[n];
      var h1, h2 := Accepted(h, us[..n], r.kept), Accepted(h, us, WriteAll(z, t, us).kept);
      assert WriteAll(z, t, us).kept[..n] == r.kept;
      if WriteAll(z, t, us).kept[n] {
        assert h2 == h1[u.chunk := h1[u.chunk] + [u.page]];
        if AllContiguous(h1) {
          NoGapIffAtPointer(z, r.table[u.chunk], h1[u.chunk], u.page);
          assert h2[u.chunk] == h1[u.chunk] + [u.page];
          assert AllContiguous(h2) <==> Contiguous(h2[u.chunk]);
        } else {
          var i :| 0 <= i < |h1| && !Contiguous(h1[i]);
          GapsStay(h1[i], u.page);
          assert !Contiguous(h2[i]);
        }
      }
    }
  }

  lemma GapsStay(h: seq<nat>, page: nat)
    ensures !Contiguous(h) ==> !Contiguous(h + [page])
  {
    if !Contiguous(h) {
      var i :| 0 <= i < |h| && h[i] != i;
      assert (h + [page])[i] == h[i];
    }
  }

  /** A write command accepts its pages up to the first refused one. */
  lemma {:induction false} WriteAcceptsPrefix(z: Sizes, t: seq<Chunk>, us: seq<Update>, i: nat, j: nat)
    requires z.Valid() && Known(t, us) && i <= j < |us|
    ensures var r := WriteAll(z, t, us); (r.kept[j] ==> r.kept[i]) && r.err == !r.kept[|us| - 1]
    decreases |us|
  {
    hide Refuses, Written;
    var n := |us| - 1;
    if n > 0 { WriteAcceptsPrefix(z, t, us[..n], if i < n then i else n - 1, if j < n then j else n - 1); }
    var r, r' := WriteAll(z, t, us[..n]), WriteAll(z, t, us);
    assert forall k :: 0 <= k < n ==> r'.kept[k] == r.kept[k];
    assert n == 0 ==> !r.err;
  }

  /** The pages of all entries put behind those of their chunks. */
  function Appended(h: seq<seq<nat>>, us: seq<Update>): (r: seq<seq<nat>>)
    requires forall i :: 0 <= i < |us| ==> us[i].chunk < |h|
    ensures |r| == |h|
  {
    if us == [] then h
    else
      var n := |us| - 1;
      var r := Appended(h, us[..n]);
      r[us[n].chunk := r[us[n].chunk] + [us[n].page]]
  }

  /** Entry j may follow what its chunk has accepted before the command and the entries before it. */
  predicate InTurn(z: Sizes, h: seq<seq<nat>>, us: seq<Update>, j: nat)
    requires j < |us| && forall i :: 0 <= i < |us| ==> us[i].chunk < |h|
  {
    MayFollow(z, Appended(h, us[..j])[us[j].chunk], us[j].page)
  }

  lemma {:induction false} WriteError(z: Sizes, t: seq<Chunk>, h: seq<seq<nat>>, us: seq<Update>)
    requires z.Valid() && AllTrack(z, t, h) && Known(t, us)
    ensures var r := WriteAll(z, t, us);
            && (r.err <==> exists j :: 0 <= j < |us| && !InTurn(z, h, us, j))
            && (!r.err ==> AllTrack(z, r.table, Appended(h, us)))
    decreases |us|
  {
    hide Tracks, Refuses, Written, MayFollow;
    if us != [] {
      var n := |us| - 1;
      var front, u := us[..n], us[n];
      WriteError(z, t, h, front);
      forall j | 0 <= j < n
        ensures InTurn(z, h, front, j) == InTurn(z, h, us, j)
      {
        assert front[..j] == us[..j];
      }
      var r := WriteAll(z, t, front);
      if !r.err {
        var h1 := Appended(h, front);
        AcceptsIff(z, r.table[u.chunk], h1[u.chunk], u.page);
        assert InTurn(z, h, us, n) == MayFollow(z, h1[u.chunk], u.page);
        if !Refuses(z, r.table[u.chunk], u.page) { WriteTracks(z, r.table[u.chunk], h1[u.chunk], u.page); }
      }
    }
  }

  lemma {:induction false} KeptSoFar(z: Sizes, t: seq<Chunk>, us: seq<Update>, i: nat)
    requires z.Valid() && Known(t, us) && i < |us|
    ensures WriteAll(z, t, us).kept[i] <==> !WriteAll(z, t, us[..i + 1]).err
    decreases |us|
  {
    hide Refuses, Written;
    if i == |us| - 1 {
      assert us[..i + 1] == us;
    } else {
      KeptSoFar(z, t, us[..|us| - 1], i);
      assert us[..|us| - 1][..i + 1] == us[..i + 1];
    }
  }

  /** Entry i is kept exactly if it and all entries before it come in turn. */
  lemma KeptIff(z: Sizes, t: seq<Chunk>, h: seq<seq<nat>>, us: seq<Update>, i: nat)
    requires z.Valid() && AllTrack(z, t, h) && Known(t, us) && i < |us|
    ensures WriteAll(z, t, us).kept[i] <==> forall j :: 0 <= j <= i ==> InTurn(z, h, us, j)
  {
    hide WriteAll, Tracks, MayFollow, Appended;
    KeptSoFar(z, t, us, i);
    var front := us[..i + 1];
    WriteError(z, t, h, front);
    forall j | 0 <= j <= i
      ensures InTurn(z, h, front, j) == InTurn(z, h, us, j)
    {
      assert front[..j] == us[..j];
    }
  }

  /** The first n pages of a chunk in order. */
  function InOrder(chunk: nat, n: nat): seq<Update> {
    seq(n, i requires 0 <= i < n => Update(chunk, i))
  }

  /** Writing the pages of a new chunk in order keeps all of them, and the last one closes it. */
  lemma {:induction false} InOrderFills(z: Sizes, t: seq<Chunk>, chunk: nat, n: nat)
    requires z.Valid() && chunk < |t| && t[chunk] == Fresh && n <= z.pages
    ensures var r := WriteAll(z, t, InOrder(chunk, n));
            && !r.err && (forall i :: 0 <= i < n ==> r.kept[i])
            && r.table == t[chunk := r.table[chunk]]
            && r.table[chunk].writePointer == n * z.writeSize
            && r.table[chunk].state == if n == 0 then Free else if n == z.pages then Closed else Open
    decreases n
  {
    if n > 0 {
      InOrderFills(z, t, chunk, n - 1);
      assert InOrder(chunk, n)[..n - 1] == InOrder(chunk, n - 1);
      PointerCompare(z, n - 1, n);
    }
  }

  /** No refused page reaches the flash, exactly if there is no error or the command has at most 64 entries. */
  lemma RefusedStaysOutIff(z: Sizes, t: seq<Chunk>, us: seq<Update>)
    requires z.Valid() && Known(t, us)
    ensures var r := WriteAll(z, t, us);
            (forall i :: 0 <= i < |us| && !r.kept[i] ==> !ToFlash(r.kept, i)) <==> !r.err || |us| <= 64
  {
    hide WriteAll;
    var r := WriteAll(z, t, us);
    forall i | 0 <= i < |us|
      ensures r.err == !r.kept[|us| - 1] && (!r.err ==> r.kept[i])
    {
      WriteAcceptsPrefix(z, t, us, i, |us| - 1);
    }
    if r.err && 64 < |us| { assert ToFlash(r.kept, |us| - 1); }
  }

  function ResetPages(h: seq<seq<nat>>, t: seq<Chunk>): seq<seq<nat>>
    requires |h| == |t|
  {
    seq(|h|, i requires 0 <= i < |h| => if t[i].state == Free then [] else h[i])
  }

  /** An erase command keeps states and write pointers in agreement. */
  lemma {:induction false} EraseAllKeeps(z: Sizes, t: seq<Chunk>, h: seq<seq<nat>>, cs: seq<nat>)
    requires z.Valid() && AllTrack(z, t, h) && forall i :: 0 <= i < |cs| ==> cs[i] < |t|
    ensures AllTrack(z, EraseAll(t, cs).table, ResetPages(h, EraseAll(t, cs).table))
    decreases |cs|
  {
    if cs != [] { EraseAllKeeps(z, t, h, cs[..|cs| - 1]); }
  }

  // ----- erase commands against the flash ------------------------------------------------------------------------

  /** The i-th entry meets a closed chunk. */
  predicate ClosedAt(t: seq<Chunk>, cs: seq<nat>, i: nat)
    requires i < |cs| && cs[i] < |t|
  {
    t[cs[i]].state == Closed && cs[i] !in cs[..i]
  }

  lemma {:induction false} EraseKeeps(t: seq<Chunk>, cs: seq<nat>, c: nat, i: nat)
    requires (forall i :: 0 <= i < |cs| ==> cs[i] < |t|) && c < |t|
    ensures var r := EraseAll(t, cs);
            && r.table[c] == (if t[c].state == Closed && c in cs then Fresh else t[c])
            && (r.err <==> exists k :: 0 <= k < |cs| && !ClosedAt(t, cs, k))
            && (i < |cs| ==> (r.kept[i] <==> forall k :: 0 <= k <= i ==> ClosedAt(t, cs, k)))
    decreases |cs|
  {
    if cs != [] {
      var n := |cs| - 1;
      var front := cs[..n];
      EraseKeeps(t, front, c, i);
      EraseKeeps(t, front, cs[n], i);
      forall k | 0 <= k < n
        ensures ClosedAt(t, front, k) == ClosedAt(t, cs, k)
      {
        assert front[..k] == cs[..k];
      }
      assert c in cs <==> c in front || c == cs[n];
      assert EraseAll(t, front).table[cs[n]].state == Closed <==> ClosedAt(t, cs, n);
      assert EraseAll(t, cs).err <==> EraseAll(t, front).err || !ClosedAt(t, cs, n);
    }
  }

  /** Exactly the closed chunks on the list are reset, each by its first entry, and an entry reaches the flash
      exactly if no entry up to it was refused, or if it is beyond the mask. */
  lemma EraseOutcome(t: seq<Chunk>, cs: seq<nat>, c: nat, i: nat)
    requires (forall i :: 0 <= i < |cs| ==> cs[i] < |t|) && c < |t|
    ensures var r := EraseAll(t, cs);
            && r.table[c] == (if t[c].state == Closed && c in cs then Fresh else t[c])
            && (r.err <==> exists k :: 0 <= k < |cs| && !ClosedAt(t, cs, k))
            && (i < |cs| ==> (ToFlash(r.kept, i) <==> 64 <= i || forall k :: 0 <= k <= i ==> ClosedAt(t, cs, k)))
  {
    hide EraseAll, ClosedAt;
    EraseKeeps(t, cs, c, i);
  }

  /** Every chunk that an erase command marks free is erased in the flash exactly if the first 64 entries have no
      closed chunk after one that is refused. */
  lemma MarkedFreeIsErasedIff(t: seq<Chunk>, cs: seq<nat>)
    requires forall i :: 0 <= i < |cs| ==> cs[i] < |t|
    ensures (forall j :: 0 <= j < |cs| && ClosedAt(t, cs, j) ==> ToFlash(EraseAll(t, cs).kept, j)) <==>
            !exists i, j :: 0 <= i < j < |cs| && j < 64 && !ClosedAt(t, cs, i) && ClosedAt(t, cs, j)
  {
    hide ClosedAt, ToFlash;
    forall j | 0 <= j < |cs|
      ensures ToFlash(EraseAll(t, cs).kept, j) <==> 64 <= j || forall k :: 0 <= k <= j ==> ClosedAt(t, cs, k)
    {
      EraseOutcome(t, cs, cs[j], j);
    }
  }

  /** A free chunk before a closed one: the closed one is marked free but its blocks are not erased. */
  lemma EraseAfterErrorIsLost(z: Sizes)
    requires z.Valid()
    ensures var t := [Fresh, Written(z, z.pages - 1)];
            var r := EraseAll(t, [0, 1]);
            Matches(z, t[1]) && r.table[1] == Fresh && !ToFlash(r.kept, 1)
  {
    var t := [Fresh, Written(z, z.pages - 1)];
    EraseOutcome(t, [0, 1], 1, 1);
    assert !ClosedAt(t, [0, 1], 0);
    PointerCompare(z, 0, z.pages);
  }

  /** No entry that is refused, and so leaves its chunk as it is, reaches the flash, exactly if every entry beyond the
      mask meets a closed chunk. */
  lemma RefusedIsNotErasedIff(t: seq<Chunk>, cs: seq<nat>)
    requires forall i :: 0 <= i < |cs| ==> cs[i] < |t|
    ensures (forall i :: 0 <= i < |cs| && !ClosedAt(t, cs, i) ==> !ToFlash(EraseAll(t, cs).kept, i)) <==>
            forall i :: 64 <= i < |cs| ==> ClosedAt(t, cs, i)
  {
    hide ClosedAt, ToFlash;
    forall j | 0 <= j < |cs|
      ensures ToFlash(EraseAll(t, cs).kept, j) <==> 64 <= j || forall k :: 0 <= k <= j ==> ClosedAt(t, cs, k)
    {
      EraseOutcome(t, cs, cs[j], j);
    }
  }

  // ----- whole runs ------------------------------------------------------------------------------------------------

  datatype Command = Write(updates: seq<Update>) | Erase(chunks: seq<nat>)

  /** Commands name chunks of the table. */
  predicate Legal(size: nat, cmd: Command) {
    match cmd
    case Write(us) => forall i :: 0 <= i < |us| ==> us[i].chunk < size
    case Erase(cs) => forall i :: 0 <= i < |cs| ==> cs[i] < size
  }

  datatype Run = Run(table: seq<Chunk>, pages: seq<seq<nat>>)

  function Step(z: Sizes, s: Run, cmd: Command): (r: Run)
    requires z.Valid() && AllTrack(z, s.table, s.pages) && Legal(|s.table|, cmd)
    ensures AllTrack(z, r.table, r.pages) && |r.table| == |s.table|
  {
    match cmd
    case Write(us) =>
      WriteAllKeeps(z, s.table, s.pages, us);
      var w := WriteAll(z, s.table, us);
      Run(w.table, Accepted(s.pages, us, w.kept))
    case Erase(cs) =>
      EraseAllKeeps(z, s.table, s.pages, cs);
      var e := EraseAll(s.table, cs);
      Run(e.table, ResetPages(s.pages, e.table))
  }

  /** Start with all chunks free. */
  function After(z: Sizes, size: nat, cmds: seq<Command>): (r: Run)
    requires z.Valid() && forall i :: 0 <= i < |cmds| ==> Legal(size, cmds[i])
    ensures AllTrack(z, r.table, r.pages) && |r.table| == size
    decreases |cmds|
  {
    if cmds == [] then Run(seq(size, i => Fresh), seq(size, i => []))
    else Step(z, After(z, size, cmds[..|cmds| - 1]), cmds[|cmds| - 1])
  }

  /** In every reachable state the pages a chunk accepted since its last reset increase strictly, it is free exactly
      if there are none, and its state agrees with its write pointer exactly if they are all inside the chunk. */
  lemma ChunkAfterAnyRun(z: Sizes, size: nat, cmds: seq<Command>, c: nat)
    requires z.Valid() && (forall i :: 0 <= i < |cmds| ==> Legal(size, cmds[i])) && c < size
    ensures var r := After(z, size, cmds);
            && |r.pages| == size && Increasing(r.pages[c]) && r.table[c].state != Offline
            && (r.table[c].state == Free <==> r.pages[c] == [])
            && (Matches(z, r.table[c]) <==> Within(z, r.pages[c]))
  {
    hide After, Matches, Within;
    var r := After(z, size, cmds);
    assert Tracks(z, r.table[c], r.pages[c]);
    MatchesIffWithin(z, r.table[c], r.pages[c]);
  }

  /** So it agrees in every reachable state if commands stay inside chunks. */
  lemma {:induction false} InsideRunsMatch(z: Sizes, size: nat, cmds: seq<Command>, c: nat)
    requires z.Valid() && (forall i :: 0 <= i < |cmds| ==> Legal(size, cmds[i])) && c < size
    requires forall i, j :: 0 <= i < |cmds| && cmds[i].Write? && 0 <= j < |cmds[i].updates| ==>
        cmds[i].updates[j].page < z.pages
    ensures var r := After(z, size, cmds); |r.pages| == size && Within(z, r.pages[c]) && Matches(z, r.table[c])
    decreases |cmds|
  {
    hide Matches, Tracks;
    ChunkAfterAnyRun(z, size, cmds, c);
    if cmds != [] {
      var n := |cmds| - 1;
      InsideRunsMatch(z, size, cmds[..n], c);
      var s, cmd := After(z, size, cmds[..n]), cmds[n];
      if cmd.Write? {
        AcceptedWithin(z, s.pages, cmd.updates, WriteAll(z, s.table, cmd.updates).kept, c);
      }
    }
  }

  lemma {:induction false} AcceptedWithin(z: Sizes, h: seq<seq<nat>>, us: seq<Update>, kept: seq<bool>, c: nat)
    requires |kept| == |us| && (forall i :: 0 <= i < |us| ==> us[i].chunk < |h| && us[i].page < z.pages)
    requires c < |h| && Within(z, h[c])
    ensures Within(z, Accepted(h, us, kept)[c])
    decreases |us|
  {
    if us != [] { AcceptedWithin(z, h, us[..|us| - 1], kept[..|us| - 1], c); }
  }

  ghost predicate SequentialCommand(z: Sizes, s: Run, cmd: Command)
    requires z.Valid() && Legal(|s.table|, cmd)
  {
    cmd.Write? ==> Sequential(z, s.table, cmd.updates)
  }

  /** The promise of sequential chunks over whole runs: no chunk ever has a gap exactly if every write command is
      sequential at its turn. */
  lemma NoGapsIffSequential(z: Sizes, size: nat, cmds: seq<Command>)
    requires z.Valid() && forall i :: 0 <= i < |cmds| ==> Legal(size, cmds[i])
    ensures (forall n :: 0 <= n <= |cmds| ==> AllContiguous(After(z, size, cmds[..n]).pages)) <==>
            (forall n :: 0 <= n < |cmds| ==> SequentialCommand(z, After(z, size, cmds[..n]), cmds[n]))
  {
    hide After, SequentialCommand, AllContiguous;
    if forall n :: 0 <= n <= |cmds| ==> AllContiguous(After(z, size, cmds[..n]).pages) {
      forall n | 0 <= n < |cmds|
        ensures SequentialCommand(z, After(z, size, cmds[..n]), cmds[n])
      {
        NextCommand(z, size, cmds, n);
        CommandLeavesNoGapIff(z, After(z, size, cmds[..n]), cmds[n]);
        assert AllContiguous(After(z, size, cmds[..n + 1]).pages);
      }
    }
    if forall n :: 0 <= n < |cmds| ==> SequentialCommand(z, After(z, size, cmds[..n]), cmds[n]) {
      forall n | 0 <= n <= |cmds|
        ensures AllContiguous(After(z, size, cmds[..n]).pages)
      {
        SequentialLeavesNoGap(z, size, cmds, n);
      }
    }
  }

  lemma {:induction false} SequentialLeavesNoGap(z: Sizes, size: nat, cmds: seq<Command>, n: nat)
    requires z.Valid() && n <= |cmds| && forall i :: 0 <= i < |cmds| ==> Legal(size, cmds[i])
    requires forall k :: 0 <= k < |cmds| ==> SequentialCommand(z, After(z, size, cmds[..k]), cmds[k])
    ensures AllContiguous(After(z, size, cmds[..n]).pages)
    decreases n
  {
    hide After, SequentialCommand, AllContiguous;
    if n == 0 {
      NoCommands(z, size, cmds);
    } else {
      SequentialLeavesNoGap(z, size, cmds, n - 1);
      NextCommand(z, size, cmds, n - 1);
      CommandLeavesNoGapIff(z, After(z, size, cmds[..n - 1]), cmds[n - 1]);
    }
  }

  lemma NoCommands(z: Sizes, size: nat, cmds: seq<Command>)
    requires z.Valid() && forall i :: 0 <= i < |cmds| ==> Legal(size, cmds[i])
    ensures AllContiguous(After(z, size, cmds[..0]).pages)
  {
  }

  lemma NextCommand(z: Sizes, size: nat, cmds: seq<Command>, n: nat)
    requires z.Valid() && n < |cmds| && forall i :: 0 <= i < |cmds| ==> Legal(size, cmds[i])
    ensures After(z, size, cmds[..n + 1]) == Step(z, After(z, size, cmds[..n]), cmds[n])
  {
    hide Step;
    assert cmds[..n + 1][..n] == cmds[..n];
  }

  lemma CommandLeavesNoGapIff(z: Sizes, s: Run, cmd: Command)
    requires z.Valid() && AllTrack(z, s.table, s.pages) && Legal(|s.table|, cmd) && AllContiguous(s.pages)
    ensures AllContiguous(Step(z, s, cmd).pages) <==> SequentialCommand(z, s, cmd)
  {
    hide Tracks, Contiguous, Sequential, WriteAll;
    match cmd
    case Write(us) => WriteLeavesNoGapIff(z, s.table, s.pages, us);
    case Erase(cs) => EmptyIsContiguous();
  }

  lemma EmptyIsContiguous()
    ensures Contiguous([])
  {
  }

  // ----- the descriptor table --------------------------------------------------------------------------------

  class ChunkTable {
    const z: Sizes
    const descriptors: array<Chunk>

    constructor (z: Sizes, size: nat)
      ensures this.z == z && fresh(descriptors) && descriptors[..] == seq(size, i => Fresh)
    {
      this.z := z;
      descriptors := new Chunk[size](i => Fresh);
    }

    /** writeInternal: the descriptor loop. */
    method WriteInternal(us: seq<Update>) returns (kept: seq<bool>, err: bool)
      requires z.Valid() && Known(descriptors[..], us)
      modifies descriptors
      ensures Result(descriptors[..], kept, err) == WriteAll(z, old(descriptors[..]), us)
    {
      hide Refuses;
      kept, err := [], false;
      for i := 0 to |us|
        invariant Result(descriptors[..], kept, err) == WriteAll(z, old(descriptors[..]), us[..i])
      {
        assert us[..i + 1][..i] == us[..i];
        var u := us[i];
        if Refuses(z, descriptors[u.chunk], u.page) { err := true; }
        if !err {
          var c := Chunk(Open, (u.page + 1) * z.writeSize);
          if u.page == z.pages - 1 { c := c.(state := Closed); }
          descriptors[u.chunk] := c;
        }
        kept := kept + [!err];
      }
      assert us[..|us|] == us;
    }

    /** eraseInternal: the descriptor loop. */
    method EraseInternal(cs: seq<nat>) returns (kept: seq<bool>, err: bool)
      requires forall i :: 0 <= i < |cs| ==> cs[i] < descriptors.Length
      modifies descriptors
      ensures Result(descriptors[..], kept, err) == EraseAll(old(descriptors[..]), cs)
    {
      kept, err := [], false;
      for i := 0 to |cs|
        invariant Result(descriptors[..], kept, err) == EraseAll(old(descriptors[..]), cs[..i])
      {
        assert cs[..i + 1][..i] == cs[..i];
        var c := cs[i];
        match descriptors[c].state {
          case Closed => descriptors[c] := Chunk(Free, 0);
          case Offline | Free | Open => err := true;
        }
        kept := kept + [!err];
      }
      assert cs[..|cs|] == cs;
    }
  }
}
