/** Bit-field addresses of the Open-Channel SSD 2.0 model: generateMask of util/algorithm.hh, and makeLBA,
    parseLBA and getChunkDescriptor of hil/nvme/ocssd.cc. */
module OpenChannelAddress {
  import opened Arithmetic
  import opened Bits

  // ----- generateMask ------------------------------------------------------------------------------------------

  /** Position of the highest bit. */
  function Log2(v: nat): (n: nat)
    requires 0 < v
  {
    if v == 1 then 0 else 1 + Log2(v / 2)
  }

  /** Position of the lowest bit. */
  function LowBit(v: nat): nat
    requires 0 < v
  {
    if v % 2 == 1 then 0 else 1 + LowBit(v / 2)
  }

  lemma {:induction false} Log2Bounds(v: nat)
    requires 0 < v
    ensures Pow2(Log2(v)) <= v < Pow2(Log2(v) + 1)
    decreases v
  {
    if v > 1 { Log2Bounds(v / 2); }
  }

  lemma {:induction false} LowBitIsLog2(v: nat)
    requires 0 < v
    ensures LowBit(v) <= Log2(v) && (LowBit(v) == Log2(v) <==> v == Pow2(Log2(v)))
    decreases v
  {
    if v > 1 {
      Log2Bounds(v / 2);
      LowBitIsLog2(v / 2);
    }
  }

  /** The fewest bits that hold every number below v. */
  ghost predicate IsWidth(v: nat, w: nat) {
    v <= Pow2(w) && (w > 0 ==> Pow2(w - 1) < v)
  }

  lemma IndicesFit(v: nat, w: nat, x: nat)
    requires IsWidth(v, w) && x < v
    ensures x < Pow2(w)
  {
  }

  lemma InvertShifted(tmp: nat)
    requires tmp <= 64
    ensures Shl(Pow2(64) - 1, tmp) % Pow2(64) == Pow2(64) - Pow2(tmp)
  {
    hide Pow2;
    var all, p := Pow2(64), Pow2(tmp);
    Pow2Monotone(tmp, 64);
    assert (all - 1) * p == (p - 1) * all + (all - p);
    Combine(all, p - 1, all - p);
  }

  lemma OnesFit(shift: nat, width: nat, top: nat)
    requires shift + width <= top
    ensures Ones(shift, width) < Pow2(top) && Ones(shift, width) % Pow2(top) == Ones(shift, width)
  {
    hide Shl, Field;
    FieldAbove(0, Pow2(width) - 1, shift, width);
    Pow2Monotone(shift + width, top);
    Combine(Pow2(top), 0, Ones(shift, width));
  }

  /** clzl and ffsl of the value are 63 - Log2 and LowBit + 1. The result covers the fewest bits that hold every
      index below `val`, starting at `count`. */
  method GenerateMask(val: nat, count: nat) returns (mask: nat, count': nat)
    requires val < Pow2(32)
    ensures count <= count' <= count + 32 && IsWidth(val, count' - count)
    ensures count' <= 64 ==> mask == Ones(count, count' - count)
  {
    hide Shl, Pow2;
    Powers();
    mask := Pow2(64) - 1;
    var tmp := 0;
    if val > 0 {
      Log2Bounds(val);
      LowBitIsLog2(val);
      Log2Small(val, 32);
      var shift := 63 - Log2(val);
      if shift + (LowBit(val) + 1) == 64 { shift := shift + 1; }
      tmp := 64 - shift;
      InvertShifted(tmp);
      mask := Shl(mask, tmp) % Pow2(64);
    }
    mask := Shl(Pow2(64) - 1 - mask, count) % Pow2(64);
    count' := count + tmp;
    if count' <= 64 { OnesFit(count, tmp, 64); }
  }

  lemma Powers()
    ensures Pow2(0) == 1
    ensures forall n: nat {:trigger Pow2(n + 1)} :: Pow2(n + 1) == 2 * Pow2(n)
  {
  }

  lemma Log2Small(v: nat, n: nat)
    requires 0 < v < Pow2(n)
    ensures Log2(v) < n
  {
    Log2Bounds(v);
    if n <= Log2(v) { Pow2Monotone(n, Log2(v)); }
  }

  // ----- makeLBA and parseLBA -----------------------------------------------------------------------------------

  /** chunkSize, chunk, parallelUnit and group of the device. */
  datatype Device = Device(sectors: nat, chunks: nat, units: nat, groups: nat) {
    predicate Valid() {
      sectors < Pow2(32) && chunks < Pow2(32) && units < Pow2(32) && groups < Pow2(32)
    }
  }

  datatype Masks = Masks(
    sectorMask: nat, blockShift: nat, blockMask: nat, wayShift: nat, wayMask: nat, channelShift: nat, channelMask: nat)

  /** Four adjacent fields, each as wide as its dimension needs. */
  ghost predicate Adjacent(d: Device, m: Masks, total: nat) {
    && m.blockShift <= m.wayShift <= m.channelShift <= total
    && IsWidth(d.sectors, m.blockShift)
    && IsWidth(d.chunks, m.wayShift - m.blockShift)
    && IsWidth(d.units, m.channelShift - m.wayShift)
    && IsWidth(d.groups, total - m.channelShift)
    && m.blockShift <= 32 && m.wayShift <= m.blockShift + 32
    && m.channelShift <= m.wayShift + 32 && total <= m.channelShift + 32
    && (total <= 64 ==>
          && m.sectorMask == Ones(0, m.blockShift)
          && m.blockMask == Ones(m.blockShift, m.wayShift - m.blockShift)
          && m.wayMask == Ones(m.wayShift, m.channelShift - m.wayShift)
          && m.channelMask == Ones(m.channelShift, total - m.channelShift))
  }

  method SetUpMasks(d: Device) returns (m: Masks, total: nat)
    requires d.Valid()
    ensures Adjacent(d, m, total)
  {
    hide Pow2, Ones;
    var sectorMask, blockShift := GenerateMask(d.sectors, 0);
    var blockMask, wayShift := GenerateMask(d.chunks, blockShift);
    var wayMask, channelShift := GenerateMask(d.units, wayShift);
    var channelMask, last := GenerateMask(d.groups, channelShift);
    m, total := Masks(sectorMask, blockShift, blockMask, wayShift, wayMask, channelShift, channelMask), last;
  }

  function Trunc32(x: nat): nat {
    x % Pow2(32)
  }

  /** A shift of a 32-bit number. */
  function Shl32(x: nat, n: nat): nat {
    Trunc32(Shl(x, n))
  }

  function MakeLba(m: Masks, g: nat, p: nat, c: nat, l: nat): nat {
    var lba := And(l, m.sectorMask);
    var lba := Or(lba, And(Shl32(c, m.blockShift), m.blockMask));
    var lba := Or(lba, And(Shl32(p, m.wayShift), m.wayMask));
    Or(lba, And(Shl32(g, m.channelShift), m.channelMask))
  }

  /** The parts of an address: group, parallel unit, chunk and block. */
  datatype Parts = Parts(g: nat, p: nat, c: nat, l: nat)

  /** Results are 32-bit. */
  function ParseLba(m: Masks, lba: nat): Parts {
    Parts(Trunc32(Shr(And(lba, m.channelMask), m.channelShift)), Trunc32(Shr(And(lba, m.wayMask), m.wayShift)),
          Trunc32(Shr(And(lba, m.blockMask), m.blockShift)), Trunc32(And(lba, m.sectorMask)))
  }

  predicate InRange(d: Device, x: Parts) {
    x.g < d.groups && x.p < d.units && x.c < d.chunks && x.l < d.sectors
  }

  /** Putting one field above what is there already. */
  lemma PutField(low: nat, x: nat, shift: nat, width: nat)
    requires low < Pow2(shift) && x < Pow2(width) && shift + width <= 32
    ensures Or(low, And(Shl32(x, shift), Ones(shift, width))) == low + Shl(x, shift) < Pow2(shift + width)
  {
    hide Shl, Or, And, Field, Ones, Pow2;
    FieldAbove(low, x, shift, width);
    FieldAbove(0, x, shift, width);
    Pow2Monotone(shift + width, 32);
    Combine(Pow2(32), 0, Shl(x, shift));
    AndMask(Shl(x, shift), shift, width);
    OrAdds(low, x, shift);
  }

  /** Reading one field. */
  lemma GetField(lba: nat, shift: nat, width: nat)
    requires width <= 32
    ensures Trunc32(Shr(And(lba, Ones(shift, width)), shift)) == Field(lba, shift, width)
  {
    hide Shl, And, Field, Ones, Pow2, Shr;
    AndMask(lba, shift, width);
    AddShifted(0, Field(lba, shift, width), shift);
    ShrZero(shift);
    Pow2Monotone(width, 32);
    Combine(Pow2(32), 0, Field(lba, shift, width));
  }

  lemma ShrZero(n: nat)
    ensures Shr(0, n) == 0
  {
    hide Pow2;
    Combine(Pow2(n), 0, 0);
  }

  /** The fields add up. */
  lemma MakeAdds(m: Masks, total: nat, x: Parts)
    requires m.blockShift <= m.wayShift <= m.channelShift <= total <= 32
    requires m.sectorMask == Ones(0, m.blockShift) && m.blockMask == Ones(m.blockShift, m.wayShift - m.blockShift)
    requires m.wayMask == Ones(m.wayShift, m.channelShift - m.wayShift)
    requires m.channelMask == Ones(m.channelShift, total - m.channelShift)
    requires x.l < Pow2(m.blockShift) && x.c < Pow2(m.wayShift - m.blockShift)
    requires x.p < Pow2(m.channelShift - m.wayShift) && x.g < Pow2(total - m.channelShift)
    ensures MakeLba(m, x.g, x.p, x.c, x.l) ==
            x.l + Shl(x.c, m.blockShift) + Shl(x.p, m.wayShift) + Shl(x.g, m.channelShift)
  {
    hide Shl, Or, And, Field, Ones, Pow2, Shr, Shl32;
    var s1, s2, s3 := m.blockShift, m.wayShift, m.channelShift;
    LowField(x.l, s1);
    var a := x.l + Shl(x.c, s1);
    PutField(x.l, x.c, s1, s2 - s1);
    PutField(a, x.p, s2, s3 - s2);
    PutField(a + Shl(x.p, s2), x.g, s3, total - s3);
  }

  lemma ParseReads(m: Masks, total: nat, lba: nat)
    requires m.blockShift <= m.wayShift <= m.channelShift <= total
    requires m.blockShift <= 32 && m.wayShift <= m.blockShift + 32
    requires m.channelShift <= m.wayShift + 32 && total <= m.channelShift + 32
    requires m.sectorMask == Ones(0, m.blockShift) && m.blockMask == Ones(m.blockShift, m.wayShift - m.blockShift)
    requires m.wayMask == Ones(m.wayShift, m.channelShift - m.wayShift)
    requires m.channelMask == Ones(m.channelShift, total - m.channelShift)
    ensures ParseLba(m, lba) ==
            Parts(Field(lba, m.channelShift, total - m.channelShift),
                Field(lba, m.wayShift, m.channelShift - m.wayShift),
                  Field(lba, m.blockShift, m.wayShift - m.blockShift), Field(lba, 0, m.blockShift))
  {
    hide Shl, And, Field, Ones, Pow2, Shr, Trunc32;
    var s1, s2, s3 := m.blockShift, m.wayShift, m.channelShift;
    GetField(lba, s3, total - s3);
    GetField(lba, s2, s3 - s2);
    GetField(lba, s1, s2 - s1);
    GetField(lba, 0, s1);
    ShrNone(And(lba, Ones(0, s1)));
  }

  /** Inside 32 bits, the address of every block in range can be taken apart again. */
  lemma MakeThenParse(d: Device, m: Masks, total: nat, x: Parts)
    requires Adjacent(d, m, total) && total <= 32 && InRange(d, x)
    ensures ParseLba(m, MakeLba(m, x.g, x.p, x.c, x.l)) == x
  {
    hide MakeLba, ParseLba, Shl, Field, Ones, Pow2;
    IndicesFit(d.sectors, m.blockShift, x.l);
    IndicesFit(d.chunks, m.wayShift - m.blockShift, x.c);
    IndicesFit(d.units, m.channelShift - m.wayShift, x.p);
    IndicesFit(d.groups, total - m.channelShift, x.g);
    MakeAdds(m, total, x);
    ParseReads(m, total, MakeLba(m, x.g, x.p, x.c, x.l));
    FieldsOf(x, m.blockShift, m.wayShift, m.channelShift, total);
  }

  lemma ShrNone(x: nat)
    ensures Shr(x, 0) == x
  {
  }

  lemma LowField(x: nat, width: nat)
    requires x < Pow2(width)
    ensures And(x, Ones(0, width)) == x && Field(x, 0, width) == x
  {
    hide Shl, And, Pow2;
    AndMask(x, 0, width);
    ShlStep(Field(x, 0, width), 0);
    FieldAtZero(x, width);
    Combine(Pow2(width), 0, x);
  }

  lemma FieldsOf(x: Parts, s1: nat, s2: nat, s3: nat, total: nat)
    requires s1 <= s2 <= s3 <= total
    requires x.l < Pow2(s1) && x.c < Pow2(s2 - s1) && x.p < Pow2(s3 - s2) && x.g < Pow2(total - s3)
    ensures var lba := x.l + Shl(x.c, s1) + Shl(x.p, s2) + Shl(x.g, s3);
            && Field(lba, s3, total - s3) == x.g && Field(lba, s2, s3 - s2) == x.p
            && Field(lba, s1, s2 - s1) == x.c && Field(lba, 0, s1) == x.l
  {
    hide Shl, Field, Pow2;
    var a := x.l + Shl(x.c, s1);
    var b := a + Shl(x.p, s2);
    FieldAbove(x.l, x.c, s1, s2 - s1);
    FieldAbove(a, x.p, s2, s3 - s2);
    FieldAbove(b, x.g, s3, total - s3);
    FieldBelow(b, x.g, s3, s2, s3 - s2);
    FieldBelow(b, x.g, s3, s1, s2 - s1);
    FieldBelow(b, x.g, s3, 0, s1);
    FieldBelow(a, x.p, s2, s1, s2 - s1);
    FieldBelow(a, x.p, s2, 0, s1);
    FieldBelow(x.l, x.c, s1, 0, s1);
    LowField(x.l, s1);
  }

  /** The largest value of every field. */
  function Largest(m: Masks, total: nat): Parts
    requires m.blockShift <= m.wayShift <= m.channelShift <= total
  {
    Parts(Pow2(total - m.channelShift) - 1, Pow2(m.channelShift - m.wayShift) - 1,
          Pow2(m.wayShift - m.blockShift) - 1, Pow2(m.blockShift) - 1)
  }

  /** The four sizes are the powers of two of their fields. */
  predicate FieldsAreFull(d: Device, m: Masks, total: nat)
    requires m.blockShift <= m.wayShift <= m.channelShift <= total
  {
    && d.sectors == Pow2(m.blockShift) && d.chunks == Pow2(m.wayShift - m.blockShift)
    && d.units == Pow2(m.channelShift - m.wayShift) && d.groups == Pow2(total - m.channelShift)
  }

  /** A host may send any 64-bit address. Every one of them names a block of the device, and so a chunk of the
      descriptor table, if and only if the four sizes are powers of two. */
  lemma ParsesInRangeIff(d: Device, m: Masks, total: nat)
    requires Adjacent(d, m, total) && total <= 64
    ensures (forall lba: nat :: lba < Pow2(64) ==> InRange(d, ParseLba(m, lba))) <==> FieldsAreFull(d, m, total)
  {
    hide Shl, Field, Ones, Pow2, ParseLba, InRange, FieldsAreFull;
    if FieldsAreFull(d, m, total) {
      forall lba: nat
        ensures InRange(d, ParseLba(m, lba))
      {
        FullFieldsParse(d, m, total, lba);
      }
    }
    var lba := LargestParses(d, m, total);
    LargestInRange(d, m, total);
  }

  lemma FullFieldsParse(d: Device, m: Masks, total: nat, lba: nat)
    requires Adjacent(d, m, total) && total <= 64 && FieldsAreFull(d, m, total)
    ensures InRange(d, ParseLba(m, lba))
  {
    hide Shl, Ones, Pow2, ParseLba;
    ParseReads(m, total, lba);
  }

  /** Some address has the largest number in every field. */
  lemma LargestParses(d: Device, m: Masks, total: nat) returns (lba: nat)
    requires Adjacent(d, m, total) && total <= 64
    ensures lba < Pow2(64) && ParseLba(m, lba) == Largest(m, total)
  {
    hide Shl, Field, Ones, Pow2, ParseLba;
    var x := Largest(m, total);
    var a := x.l + Shl(x.c, m.blockShift);
    var b := a + Shl(x.p, m.wayShift);
    lba := b + Shl(x.g, m.channelShift);
    FieldsOf(x, m.blockShift, m.wayShift, m.channelShift, total);
    FieldAbove(x.l, x.c, m.blockShift, m.wayShift - m.blockShift);
    FieldAbove(a, x.p, m.wayShift, m.channelShift - m.wayShift);
    FieldAbove(b, x.g, m.channelShift, total - m.channelShift);
    Pow2Monotone(total, 64);
    ParseReads(m, total, lba);
  }

  lemma LargestInRange(d: Device, m: Masks, total: nat)
    requires Adjacent(d, m, total)
    ensures InRange(d, Largest(m, total)) ==> FieldsAreFull(d, m, total)
  {
    hide Pow2;
  }

  // ----- beyond 32 bits ------------------------------------------------------------------------------------------

  /** A field that ends beyond bit 32 cannot hold its largest index, whatever its mask. */
  lemma FieldIsCut(size: nat, shift: nat, width: nat, mask: nat)
    requires IsWidth(size, width) && 0 < width && 32 < shift + width
    ensures 1 < size && Trunc32(Shr(And(And(Shl32(size - 1, shift), mask), mask), shift)) < size - 1
  {
    hide And, Shl, Pow2;
    var x := size - 1;
    var y := Shl32(x, shift);
    AndAtMost(y, mask);
    AndAtMost(And(y, mask), mask);
    Powers();
    assert Pow2(width - 1) <= x;
    var z := And(And(y, mask), mask);
    TruncAtMost(Shr(z, shift));
    TruncAtMost(Shl(x, shift));
    if shift <= 32 {
      Pow2Monotone(32 - shift, width - 1);
      Pow2Add(32 - shift, shift);
      QuotientBelow(z, Pow2(shift), Pow2(32 - shift));
    } else {
      ShlAdd(x, shift - 32, 32);
      AddShifted(0, Shl(x, shift - 32), 32);
      Combine(Pow2(32), 0, 0);
      ShrZero(shift);
      Pow2Monotone(0, width - 1);
    }
  }

  lemma TruncAtMost(x: nat)
    ensures Trunc32(x) <= x && Trunc32(x) < Pow2(32)
  {
    hide Pow2;
    DivMod(x, Pow2(32));
  }

  lemma ZeroBits()
    ensures forall m: nat :: And(0, m) == 0
    ensures forall n: nat :: Or(0, n) == n
    ensures forall n: nat :: Or(n, 0) == n
    ensures forall n: nat :: Shl32(0, n) == 0
  {
    hide Pow2;
    Combine(Pow2(32), 0, 0);
  }

  /** If the fields need more than 32 bits, some block in range does not survive the round trip. */
  lemma WideAddressesFail(d: Device, m: Masks, total: nat)
    requires Adjacent(d, m, total) && 32 < total && 0 < d.sectors && 0 < d.chunks && 0 < d.units && 0 < d.groups
    ensures exists x :: InRange(d, x) && ParseLba(m, MakeLba(m, x.g, x.p, x.c, x.l)) != x
  {
    hide And, Or, Shl, Pow2, Shr, Ones, Shl32, Trunc32;
    var s1, s2, s3 := m.blockShift, m.wayShift, m.channelShift;
    ZeroBits();
    if s3 < total {
      var x := Parts(d.groups - 1, 0, 0, 0);
      FieldIsCut(d.groups, s3, total - s3, m.channelMask);
      assert MakeLba(m, x.g, 0, 0, 0) == And(Shl32(x.g, s3), m.channelMask);
      assert InRange(d, x) && ParseLba(m, MakeLba(m, x.g, x.p, x.c, x.l)) != x;
    } else if s2 < s3 {
      var x := Parts(0, d.units - 1, 0, 0);
      FieldIsCut(d.units, s2, s3 - s2, m.wayMask);
      assert MakeLba(m, 0, x.p, 0, 0) == And(Shl32(x.p, s2), m.wayMask);
      assert InRange(d, x) && ParseLba(m, MakeLba(m, x.g, x.p, x.c, x.l)) != x;
    } else {
      var x := Parts(0, 0, d.chunks - 1, 0);
      FieldIsCut(d.chunks, s1, s2 - s1, m.blockMask);
      assert MakeLba(m, 0, 0, x.c, 0) == And(Shl32(x.c, s1), m.blockMask);
      assert InRange(d, x) && ParseLba(m, MakeLba(m, x.g, x.p, x.c, x.l)) != x;
    }
  }

  /** The round trip holds for all blocks in range if and only if the four fields fit in 32 bits. */
  lemma RoundTripIff32Bits(d: Device, m: Masks, total: nat)
    requires Adjacent(d, m, total) && 0 < d.sectors && 0 < d.chunks && 0 < d.units && 0 < d.groups
    ensures (forall x :: InRange(d, x) ==> ParseLba(m, MakeLba(m, x.g, x.p, x.c, x.l)) == x) <==> total <= 32
  {
    hide Adjacent, MakeLba, ParseLba;
    if total <= 32 {
      forall x | InRange(d, x)
        ensures ParseLba(m, MakeLba(m, x.g, x.p, x.c, x.l)) == x
      {
        MakeThenParse(d, m, total, x);
      }
    } else {
      WideAddressesFail(d, m, total);
    }
  }

  // ----- chunk descriptors ------------------------------------------------------------------------------------------

  /** getChunkDescriptor: position in the descriptor table. */
  function DescriptorIndex(d: Device, g: nat, p: nat, c: nat): nat {
    (g * d.units) * d.chunks + p * d.chunks + c
  }

  /** One more digit, below n. */
  function Digit(high: nat, low: nat, n: nat): nat {
    high * n + low
  }

  lemma DigitsDiffer(a: nat, b: nat, c: nat, d: nat, n: nat)
    requires b < n && d < n && Digit(a, b, n) == Digit(c, d, n)
    ensures a == c && b == d
  {
    Unique(n, a, b, c, d);
  }

  lemma DigitBelow(a: nat, b: nat, m: nat, n: nat)
    requires a < m && b < n
    ensures Digit(a, b, n) < m * n
  {
    Below(a, b, n, m);
  }

  lemma IndexIsDigits(d: Device, x: Parts)
    ensures DescriptorIndex(d, x.g, x.p, x.c) == Digit(Digit(x.g, x.p, d.units), x.c, d.chunks)
  {
  }

  /** Every chunk in range has a descriptor of its own. */
  lemma DescriptorsAreDistinct(d: Device, x: Parts, y: Parts)
    requires InRange(d, x) && InRange(d, y)
    ensures DescriptorIndex(d, x.g, x.p, x.c) < (d.groups * d.units) * d.chunks
    ensures DescriptorIndex(d, x.g, x.p, x.c) == DescriptorIndex(d, y.g, y.p, y.c) ==>
        x.g == y.g && x.p == y.p && x.c == y.c
  {
    hide Digit, DescriptorIndex;
    IndexIsDigits(d, x);
    IndexIsDigits(d, y);
    DigitBelow(x.g, x.p, d.groups, d.units);
    DigitBelow(Digit(x.g, x.p, d.units), x.c, d.groups * d.units, d.chunks);
    if DescriptorIndex(d, x.g, x.p, x.c) == DescriptorIndex(d, y.g, y.p, y.c) {
      DigitsDiffer(Digit(x.g, x.p, d.units), x.c, Digit(y.g, y.p, d.units), y.c, d.chunks);
      DigitsDiffer(x.g, x.p, y.g, y.p, d.units);
    }
  }

  /** Descriptors are in the order of chunks, then of parallel units, then of groups. */
  lemma DescriptorsInOrder(d: Device, g: nat, p: nat, c: nat)
    requires g < d.groups && p < d.units && c < d.chunks
    ensures DescriptorIndex(d, 0, 0, 0) == 0
    ensures c + 1 < d.chunks ==> DescriptorIndex(d, g, p, c + 1) == DescriptorIndex(d, g, p, c) + 1
    ensures c + 1 == d.chunks && p + 1 < d.units ==> DescriptorIndex(d, g, p + 1, 0) == DescriptorIndex(d, g, p, c) + 1
    ensures c + 1 == d.chunks && p + 1 == d.units ==> DescriptorIndex(d, g + 1, 0, 0) == DescriptorIndex(d, g, p, c) + 1
  {
    IndexIsDigits(d, Parts(g, p, c, 0));
    IndexIsDigits(d, Parts(g, p, c + 1, 0));
    IndexIsDigits(d, Parts(g, p + 1, 0, 0));
    IndexIsDigits(d, Parts(g + 1, 0, 0, 0));
    IndexIsDigits(d, Parts(0, 0, 0, 0));
    hide DescriptorIndex;
    NextDigit(Digit(g, p, d.units), d.chunks);
    NextDigit(g, d.units);
  }

  lemma NextDigit(high: nat, n: nat)
    requires 0 < n
    ensures Digit(high, n - 1, n) + 1 == Digit(high + 1, 0, n) && Digit(0, 0, n) == 0
    ensures forall low: nat :: Digit(high, low + 1, n) == Digit(high, low, n) + 1
  {
  }
}
