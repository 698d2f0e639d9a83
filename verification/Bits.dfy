/** Powers of two and bit operations on natural numbers, for the masks of util/algorithm.hh. */
module Bits {
  import opened Arithmetic

  function Pow2(n: nat): (p: nat)
    ensures 0 < p
  {
    if n == 0 then 1 else 2 * Pow2(n - 1)
  }

  lemma {:induction false} Pow2Add(m: nat, n: nat)
    ensures Pow2(m + n) == Pow2(m) * Pow2(n)
    decreases n
  {
    if n > 0 { Pow2Add(m, n - 1); }
  }

  lemma {:induction false} Pow2Monotone(m: nat, n: nat)
    requires m <= n
    ensures Pow2(m) <= Pow2(n)
    decreases n
  {
    if m < n { Pow2Monotone(m, n - 1); }
  }

  function And(x: nat, y: nat): nat {
    if x == 0 || y == 0 then 0 else 2 * And(x / 2, y / 2) + (x % 2) * (y % 2)
  }

  function Or(x: nat, y: nat): nat
    decreases x + y
  {
    if x == 0 then y else if y == 0 then x
    else 2 * Or(x / 2, y / 2) + if x % 2 == 1 || y % 2 == 1 then 1 else 0
  }

  lemma {:induction false} AndAtMost(x: nat, y: nat)
    ensures And(x, y) <= x && And(x, y) <= y
    decreases x
  {
    if x != 0 && y != 0 { AndAtMost(x / 2, y / 2); }
  }

  /** Shift left. */
  function Shl(x: nat, n: nat): nat {
    x * Pow2(n)
  }

  function Shr(x: nat, n: nat): nat {
    Quotient(x, Pow2(n))
  }

  lemma ShlStep(x: nat, n: nat)
    ensures Shl(x, n + 1) == 2 * Shl(x, n)
    ensures Shl(x, 0) == x && Shl(0, n) == 0
  {
  }

  /** The bits from `shift` on, `width` of them. */
  function Field(x: nat, shift: nat, width: nat): (f: nat)
    ensures f < Pow2(width)
  {
    Shr(x, shift) % Pow2(width)
  }

  /** A mask with ones in one field. */
  function Ones(shift: nat, width: nat): nat {
    Shl(Pow2(width) - 1, shift)
  }

  lemma Halve(x: nat, p: nat)
    requires 0 < p
    ensures x / (2 * p) == (x / 2) / p
  {
    DivMod(x, 2);
    DivMod(x / 2, p);
    var q, r := (x / 2) / p, (x / 2) % p;
    assert x == q * (2 * p) + (2 * r + x % 2);
    Combine(2 * p, q, 2 * r + x % 2);
  }

  lemma AndStep(x: nat, y: nat)
    ensures And(x, y) == 2 * And(x / 2, y / 2) + (x % 2) * (y % 2)
  {
  }

  lemma {:induction false} AndOnes(x: nat, width: nat)
    ensures And(x, Pow2(width) - 1) == x % Pow2(width)
    decreases width
  {
    if width > 0 {
      var p := Pow2(width - 1);
      assert Pow2(width) == 2 * p;
      hide And, Pow2;
      AndOnes(x / 2, width - 1);
      OneMoreOne(x, p);
    }
  }

  lemma OneMoreOne(x: nat, p: nat)
    requires 0 < p && And(x / 2, p - 1) == x / 2 % p
    ensures And(x, 2 * p - 1) == x % (2 * p)
  {
    hide And;
    AndStep(x, 2 * p - 1);
    HalfOfOnes(p);
    RemainderTwice(x, p);
  }

  lemma HalfOfOnes(p: nat)
    requires 0 < p
    ensures (2 * p - 1) / 2 == p - 1 && (2 * p - 1) % 2 == 1
  {
  }

  lemma RemainderTwice(x: nat, p: nat)
    requires 0 < p
    ensures x % (2 * p) == 2 * (x / 2 % p) + x % 2
  {
    DivMod(x, 2);
    DivMod(x / 2, p);
    var q, r := (x / 2) / p, (x / 2) % p;
    assert x == q * (2 * p) + (2 * r + x % 2);
    Combine(2 * p, q, 2 * r + x % 2);
  }

  lemma AndEven(x: nat, y: nat)
    ensures And(x, 2 * y) == 2 * And(x / 2, y)
  {
    hide And;
    AndStep(x, 2 * y);
    assert (2 * y) / 2 == y && (2 * y) % 2 == 0;
  }

  lemma FieldStep(x: nat, shift: nat, width: nat)
    ensures Field(x, shift + 1, width) == Field(x / 2, shift, width)
  {
    Halve(x, Pow2(shift));
  }

  /** Masking keeps one field in its place. */
  lemma {:induction false} AndMask(x: nat, shift: nat, width: nat)
    ensures And(x, Ones(shift, width)) == Shl(Field(x, shift, width), shift)
    decreases shift
  {
    hide Shl, And, Field;
    if shift == 0 {
      ShlStep(Pow2(width) - 1, 0);
      ShlStep(Field(x, 0, width), 0);
      AndOnes(x, width);
      FieldAtZero(x, width);
    } else {
      AndMask(x / 2, shift - 1, width);
      FieldStep(x, shift - 1, width);
      ShlStep(Pow2(width) - 1, shift - 1);
      ShlStep(Field(x, shift, width), shift - 1);
      AndEven(x, Ones(shift - 1, width));
    }
  }

  lemma FieldAtZero(x: nat, width: nat)
    ensures Field(x, 0, width) == x % Pow2(width)
  {
  }

  /** Numbers without common bits are added. */
  lemma {:induction false} OrAdds(low: nat, high: nat, shift: nat)
    requires low < Pow2(shift)
    ensures Or(low, Shl(high, shift)) == low + Shl(high, shift)
    decreases shift
  {
    hide Shl;
    if shift == 0 {
      ShlStep(high, 0);
    } else {
      OrAdds(low / 2, high, shift - 1);
      ShlStep(high, shift - 1);
    }
  }

  // ----- fields of a sum ---------------------------------------------------------------------------------------

  /** A field above `shift` does not see what is below it. */
  lemma FieldAbove(low: nat, high: nat, shift: nat, width: nat)
    requires low < Pow2(shift) && high < Pow2(width)
    ensures Field(low + Shl(high, shift), shift, width) == high
    ensures low + Shl(high, shift) < Pow2(shift + width)
  {
    Combine(Pow2(shift), high, low);
    Combine(Pow2(width), 0, high);
    Below(high, low, Pow2(shift), Pow2(width));
    Pow2Add(shift, width);
  }

  lemma ShlAdd(x: nat, m: nat, n: nat)
    ensures Shl(x, m + n) == Shl(Shl(x, m), n)
  {
    hide Pow2;
    Pow2Add(m, n);
    Associate(x, Pow2(m), Pow2(n));
  }

  lemma AddShifted(low: nat, k: nat, n: nat)
    ensures Shr(low + Shl(k, n), n) == Shr(low, n) + k && (low + Shl(k, n)) % Pow2(n) == low % Pow2(n)
  {
    hide Pow2;
    AddMultiple(low, k, Pow2(n));
  }

  /** And a field below does not see what is above it. */
  lemma FieldBelow(low: nat, high: nat, top: nat, shift: nat, width: nat)
    requires shift + width <= top
    ensures Field(low + Shl(high, top), shift, width) == Field(low, shift, width)
  {
    hide Shl, Shr, Pow2;
    var more := Shl(high, top - shift - width);
    ShlAdd(high, top - shift - width, width);
    ShlAdd(high, top - shift, shift);
    AddShifted(low, Shl(more, width), shift);
    AddShifted(Shr(low, shift), more, width);
  }
}
