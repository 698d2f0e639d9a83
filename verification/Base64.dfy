/** encode and decode of util/b64.cc against the base 64 encoding of section 4 of RFC 4648. */
module Base64 {
  import opened Arithmetic

  type Byte = x: nat | x < 256

  const Pad: Byte := 61

  // ----- section 4 of RFC 4648 -----------------------------------------------------------------------------------

  /** The alphabet of Table 1: A-Z, a-z, 0-9, + and /. */
  function Letter(n: nat): Byte
    requires n < 64
  {
    if n < 26 then 65 + n
    else if n < 52 then 97 + (n - 26)
    else if n < 62 then 48 + (n - 52)
    else if n == 62 then 43
    else 47
  }

  /** One group of at most three bytes. */
  function Quantum(s: seq<Byte>): (q: seq<Byte>)
    requires 1 <= |s| <= 3
    ensures |q| == 4
  {
    var a := s[0];
    if |s| == 1 then [Letter(a / 4), Letter(a % 4 * 16), Pad, Pad]
    else
      var b := s[1];
      if |s| == 2 then [Letter(a / 4), Letter(a % 4 * 16 + b / 16), Letter(b % 16 * 4), Pad]
      else [Letter(a / 4), Letter(a % 4 * 16 + b / 16), Letter(b % 16 * 4 + s[2] / 64), Letter(s[2] % 64)]
  }

  function Encoding(s: seq<Byte>): seq<Byte> {
    if s == [] then [] else if |s| <= 3 then Quantum(s) else Quantum(s[..3]) + Encoding(s[3..])
  }

  /** The bytes of group g. */
  function Group(s: seq<Byte>, g: nat): (r: seq<Byte>)
    requires 3 * g < |s|
    ensures 1 <= |r| <= 3
  {
    if 3 * g + 3 <= |s| then s[3 * g..3 * g + 3] else s[3 * g..]
  }

  function Groups(n: nat): nat {
    (n + 2) / 3
  }

  /** Four characters for each group of three bytes, the last group padded. */
  lemma {:induction false} EncodingGroup(s: seq<Byte>, g: nat)
    requires 3 * g < |s|
    ensures |Encoding(s)| == 4 * Groups(|s|) && 4 * g + 4 <= |Encoding(s)|
    ensures Encoding(s)[4 * g..4 * g + 4] == Quantum(Group(s, g))
    decreases |s|
  {
    hide Quantum;
    if |s| <= 3 {
      assert Group(s, 0) == s;
    } else {
      EncodingGroup(s[3..], if g == 0 then 0 else g - 1);
      NextGroup(s, g);
      Behind(Quantum(s[..3]), Encoding(s[3..]), g);
    }
  }

  lemma NextGroup(s: seq<Byte>, g: nat)
    requires 3 < |s| && 3 * g < |s|
    ensures if g == 0 then Group(s, g) == s[..3] else Group(s, g) == Group(s[3..], g - 1)
    ensures Groups(|s|) == Groups(|s[3..]|) + 1
  {
    var k := 3 * g;
    assert (|s| + 2) / 3 == (|s| - 1) / 3 + 1;
    if g > 0 {
      assert s[3..][k - 3..] == s[k..];
      if k + 3 <= |s| { assert s[3..][k - 3..k] == s[k..k + 3]; }
    }
  }

  /** Four characters in front. */
  lemma Behind(q: seq<Byte>, rest: seq<Byte>, g: nat)
    requires |q| == 4 && 4 * g <= |rest|
    ensures (q + rest)[4 * g..4 * g + 4] == if g == 0 then q else rest[4 * (g - 1)..4 * g]
  {
  }

  lemma EncodingLength(s: seq<Byte>)
    ensures |Encoding(s)| == 4 * Groups(|s|)
  {
    if s != [] { EncodingGroup(s, 0); }
  }

  // ----- encode ----------------------------------------------------------------------------------------------------

  /** The 24-bit word of a group. */
  function Word(a: Byte, b: Byte, c: Byte): nat {
    a * 65536 + b * 256 + c
  }

  /** The four letters taken out of a word. */
  function Letters(w: nat): (q: seq<Byte>)
    ensures |q| == 4
  {
    [Letter(w / 262144 % 64), Letter(w / 4096 % 64), Letter(w / 64 % 64), Letter(w % 64)]
  }

  /** Four digits of six bits, and how they are read off. */
  function Sextets(s: nat, t: nat, u: nat, v: nat): nat {
    s * 262144 + t * 4096 + u * 64 + v
  }

  lemma SextetsOf(s: nat, t: nat, u: nat, v: nat)
    requires s < 64 && t < 64 && u < 64 && v < 64
    ensures var w := Sextets(s, t, u, v); w / 262144 % 64 == s && w / 4096 % 64 == t && w / 64 % 64 == u && w % 64 == v
  {
    Combine(262144, s, t * 4096 + u * 64 + v);
    Combine(64, 0, s);
    Combine(4096, s * 64 + t, u * 64 + v);
    Combine(64, s, t);
    Combine(64, (s * 64 + t) * 64 + u, v);
    Combine(64, s * 64 + t, u);
  }

  lemma BytesOf(a: Byte, b: Byte, c: Byte)
    ensures var w := Word(a, b, c); w / 65536 % 256 == a && w / 256 % 256 == b && w % 256 == c
  {
    Combine(65536, a, b * 256 + c);
    Combine(256, 0, a);
    Combine(256, a * 256 + b, c);
    Combine(256, a, b);
  }

  /** Three bytes are four sextets. */
  lemma WordIsSextets(a: Byte, b: Byte, c: Byte)
    ensures Word(a, b, c) == Sextets(a / 4, a % 4 * 16 + b / 16, b % 16 * 4 + c / 64, c % 64)
  {
  }

  /** A group with its missing bytes taken as zero, and then padded. */
  lemma PaddedLetters(s: seq<Byte>)
    requires 1 <= |s| <= 3
    ensures var b: Byte, c: Byte := if |s| > 1 then s[1] else 0, if |s| > 2 then s[2] else 0;
            var q := Letters(Word(s[0], b, c));
            Quantum(s) == q[..|s| + 1] + seq(3 - |s|, i => Pad)
  {
    var b: Byte, c: Byte := if |s| > 1 then s[1] else 0, if |s| > 2 then s[2] else 0;
    WordIsSextets(s[0], b, c);
    SextetsOf(s[0] / 4, s[0] % 4 * 16 + b / 16, b % 16 * 4 + c / 64, c % 64);
  }

  /** Letters of group g, before padding. */
  function Raw(s: seq<Byte>, g: nat): (q: seq<Byte>)
    requires 3 * g < |s|
    ensures |q| == 4
  {
    var b: Byte := if 3 * g + 1 >= |s| then 0 else s[3 * g + 1];
    var c: Byte := if 3 * g + 2 >= |s| then 0 else s[3 * g + 2];
    Letters(Word(s[3 * g], b, c))
  }

  /** Only the last group is padded, at its end. */
  lemma RawGroup(s: seq<Byte>, g: nat, k: nat)
    requires 3 * g < |s| && k < 4
    ensures 4 * g + 4 <= |Encoding(s)| == 4 * Groups(|s|)
    ensures Encoding(s)[4 * g + k] == if 3 * g + k <= |s| then Raw(s, g)[k] else Pad
  {
    hide Letters, Quantum, Encoding;
    EncodingGroup(s, g);
    PaddedLetters(Group(s, g));
    assert Encoding(s)[4 * g + k] == Encoding(s)[4 * g..4 * g + 4][k];
  }

  /** Character i before padding. */
  function RawAt(s: seq<Byte>, i: nat): Byte
    requires i < 4 * Groups(|s|)
  {
    Raw(s, i / 4)[i % 4]
  }

  lemma RawAtGroup(s: seq<Byte>, g: nat)
    requires 3 * g < |s|
    ensures 4 * g + 4 <= 4 * Groups(|s|)
    ensures RawAt(s, 4 * g) == Raw(s, g)[0] && RawAt(s, 4 * g + 1) == Raw(s, g)[1]
    ensures RawAt(s, 4 * g + 2) == Raw(s, g)[2] && RawAt(s, 4 * g + 3) == Raw(s, g)[3]
  {
    hide Raw;
    Combine(4, g, 0);
    Combine(4, g, 1);
    Combine(4, g, 2);
    Combine(4, g, 3);
  }

  lemma EncodingAt(s: seq<Byte>, i: nat)
    requires i < 4 * Groups(|s|)
    ensures |Encoding(s)| == 4 * Groups(|s|)
    ensures Encoding(s)[i] == if i < 4 * Groups(|s|) - (3 * Groups(|s|) - |s|) then RawAt(s, i) else Pad
  {
    hide Raw, Encoding;
    DivMod(i, 4);
    RawGroup(s, i / 4, i % 4);
  }

  /** Convert every group of three bytes, missing ones taken as zero. */
  method ConvertGroups(input: seq<Byte>, out: array<Byte>)
    requires out.Length == 4 * Groups(|input|)
    modifies out
    ensures forall i :: 0 <= i < out.Length ==> out[i] == RawAt(input, i)
  {
    hide Letters, RawAt;
    for g := 0 to Groups(|input|)
      invariant forall i :: 0 <= i < 4 * g ==> out[i] == RawAt(input, i)
    {
      RawAtGroup(input, g);
      var b: Byte := if 3 * g + 1 >= |input| then 0 else input[3 * g + 1];
      var c: Byte := if 3 * g + 2 >= |input| then 0 else input[3 * g + 2];
      var q := Letters(Word(input[3 * g], b, c));
      out[4 * g + 0] := q[0];
      out[4 * g + 1] := q[1];
      out[4 * g + 2] := q[2];
      out[4 * g + 3] := q[3];
    }
  }

  method Encode(input: seq<Byte>) returns (out: array<Byte>)
    ensures fresh(out) && out[..] == Encoding(input)
  {
    hide Encoding, RawAt;
    var trailing := |input| % 3;
    var pads := if trailing == 0 then 0 else 3 - trailing;
    EncodingLength(input);
    assert (|input| + pads) / 3 == Groups(|input|) && pads == 3 * Groups(|input|) - |input|;
    out := new Byte[(|input| + pads) / 3 * 4];
    ConvertGroups(input, out);
    for i := 0 to pads
      invariant forall j :: 0 <= j < out.Length - i ==> out[j] == RawAt(input, j)
      invariant forall j :: out.Length - i <= j < out.Length ==> out[j] == Pad
    {
      out[out.Length - 1 - i] := Pad;
    }
    forall j | 0 <= j < out.Length
      ensures out[j] == Encoding(input)[j]
    {
      EncodingAt(input, j);
    }
  }

  // ----- decode -----------------------------------------------------------------------------------------------------

  /** The decoding table; everything outside the alphabet is 255. */
  function Unmap(c: Byte): Byte {
    if c == 43 then 62
    else if c == 47 then 63
    else if 48 <= c <= 57 then 52 + (c - 48)
    else if 65 <= c <= 90 then c - 65
    else if 97 <= c <= 122 then 26 + (c - 97)
    else 255
  }

  /** Six bits of a table entry. */
  function Sextet(c: Byte): (n: nat)
    ensures n < 64
  {
    Unmap(c) % 64
  }

  lemma LetterThenSextet(n: nat)
    requires n < 64
    ensures Sextet(Letter(n)) == n && Letter(n) != Pad
  {
  }

  /** The three bytes of four characters. */
  function Bytes(q: seq<Byte>): (r: seq<Byte>)
    requires |q| == 4
    ensures |r| == 3
  {
    var w := Sextets(Sextet(q[0]), Sextet(q[1]), Sextet(q[2]), Sextet(q[3]));
    [w / 65536 % 256, w / 256 % 256, w % 256]
  }

  function Pads(input: seq<Byte>): (n: nat)
    requires 2 <= |input|
    ensures n <= 2
  {
    (if input[|input| - 1] == Pad then 1 else 0) + if input[|input| - 2] == Pad then 1 else 0
  }

  /** Byte i before cutting. */
  function ByteAt(input: seq<Byte>, i: nat): Byte
    requires i < |input| / 4 * 3
  {
    Bytes(input[4 * (i / 3)..4 * (i / 3) + 4])[i % 3]
  }

  lemma ByteAtGroup(input: seq<Byte>, g: nat)
    requires 4 * g + 4 <= |input|
    ensures 3 * g + 3 <= |input| / 4 * 3
    ensures var r := Bytes(input[4 * g..4 * g + 4]);
            ByteAt(input, 3 * g) == r[0] && ByteAt(input, 3 * g + 1) == r[1] && ByteAt(input, 3 * g + 2) == r[2]
  {
    hide Bytes;
    Combine(3, g, 0);
    Combine(3, g, 1);
    Combine(3, g, 2);
  }

  /** What decode returns: the bytes of all groups, less one for each of the last two characters that is padding. */
  function Decoding(input: seq<Byte>): (r: seq<Byte>)
    requires 4 <= |input|
    ensures |r| == |input| / 4 * 3 - Pads(input)
  {
    seq(|input| / 4 * 3 - Pads(input), i requires 0 <= i < |input| / 4 * 3 - Pads(input) => ByteAt(input, i))
  }

  /** Convert every group of four characters. */
  method ConvertBack(input: seq<Byte>, out: array<Byte>)
    requires out.Length == |input| / 4 * 3
    modifies out
    ensures forall i :: 0 <= i < out.Length ==> out[i] == ByteAt(input, i)
  {
    hide Sextet, ByteAt, Sextets;
    for g := 0 to |input| / 4
      invariant forall i :: 0 <= i < 3 * g ==> out[i] == ByteAt(input, i)
    {
      ByteAtGroup(input, g);
      var w := Sextets(Sextet(input[4 * g]), Sextet(input[4 * g + 1]), Sextet(input[4 * g + 2]),
          Sextet(input[4 * g + 3]));
      out[3 * g + 2] := w % 256;
      out[3 * g + 1] := w / 256 % 256;
      out[3 * g + 0] := w / 65536 % 256;
    }
  }

  /** The table ends at 'z'. The size fits the buffer unless an input that is shorter than a group ends in padding:
      then it wraps around. */
  method Decode(input: seq<Byte>) returns (out: array<Byte>, size: nat)
    requires 2 <= |input| < Wrap && forall i :: 0 <= i < |input| / 4 * 4 ==> input[i] <= 122
    ensures fresh(out) && out.Length == |input| / 4 * 3
    ensures size <= out.Length <==> 4 <= |input| || Pads(input) == 0
    ensures 4 <= |input| ==> out[..size] == Decoding(input)
    ensures |input| < 4 ==> size == (0 - Pads(input)) % Wrap
  {
    hide ByteAt;
    size := |input| / 4 * 3;
    out := new Byte[size];
    ConvertBack(input, out);
    if input[|input| - 1] == Pad { size := (size - 1) % Wrap; }
    if input[|input| - 2] == Pad { size := (size - 1) % Wrap; }
  }

  // ----- round trip ------------------------------------------------------------------------------------------

  /** Padding decodes to ones, which reach only bytes that are cut off. */
  lemma QuantumThenBytes(s: seq<Byte>)
    requires 1 <= |s| <= 3
    ensures Bytes(Quantum(s))[..|s|] == s
    ensures Pads(Quantum(s)) == 3 - |s|
  {
    hide Letter, Sextet, Word, Sextets;
    var a := s[0];
    LetterThenSextet(a / 4);
    PadSextet();
    if |s| == 1 {
      LetterThenSextet(a % 4 * 16);
      WordIsSextets(a, 15, 255);
      BytesOf(a, 15, 255);
    } else {
      var b := s[1];
      LetterThenSextet(a % 4 * 16 + b / 16);
      if |s| == 2 {
        LetterThenSextet(b % 16 * 4);
        WordIsSextets(a, b, 63);
        BytesOf(a, b, 63);
      } else {
        LetterThenSextet(b % 16 * 4 + s[2] / 64);
        LetterThenSextet(s[2] % 64);
        WordIsSextets(a, b, s[2]);
        BytesOf(a, b, s[2]);
      }
    }
  }

  lemma PadSextet()
    ensures Sextet(Pad) == 63
  {
  }

  lemma PadsOfEncoding(x: seq<Byte>)
    requires x != []
    ensures 4 <= |Encoding(x)| == 4 * Groups(|x|) && Pads(Encoding(x)) == 3 * Groups(|x|) - |x|
  {
    hide Quantum, Encoding;
    var last := Groups(|x|) - 1;
    EncodingGroup(x, last);
    var e, q := Encoding(x), Quantum(Group(x, last));
    QuantumThenBytes(Group(x, last));
    assert e[4 * last..4 * last + 4][3] == e[|e| - 1] && e[4 * last..4 * last + 4][2] == e[|e| - 2];
  }

  lemma ByteAtEncoding(x: seq<Byte>, i: nat)
    requires i < |x|
    ensures i < |Encoding(x)| / 4 * 3 && ByteAt(Encoding(x), i) == x[i]
  {
    hide Quantum, Encoding, Bytes;
    DivMod(i, 3);
    var g, k := i / 3, i % 3;
    EncodingGroup(x, g);
    QuantumThenBytes(Group(x, g));
    assert Group(x, g)[k] == x[i];
    assert Bytes(Quantum(Group(x, g)))[..|Group(x, g)|][k] == Bytes(Quantum(Group(x, g)))[k];
  }

  /** decode(encode(x)) == x for every byte string that is not empty. */
  lemma EncodeThenDecode(x: seq<Byte>)
    requires x != []
    ensures 4 <= |Encoding(x)| && Decoding(Encoding(x)) == x
  {
    hide Encoding, ByteAt, Pads;
    PadsOfEncoding(x);
    forall i | 0 <= i < |x|
      ensures Decoding(Encoding(x))[i] == x[i]
    {
      ByteAtEncoding(x, i);
    }
  }

  /** Encoded text uses the alphabet and padding only, so it stays inside the decoding table. */
  lemma {:induction false} EncodingIsText(x: seq<Byte>)
    ensures forall i :: 0 <= i < |Encoding(x)| ==> Encoding(x)[i] <= 122
    decreases |x|
  {
    if |x| > 3 { EncodingIsText(x[3..]); }
  }
}
