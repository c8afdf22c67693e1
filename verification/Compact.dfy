/**
 * The compact form of difficulty targets: a sign, a 23-bit mantissa and an
 * exponent to the base 256 in 32 bits.
 */
module Compact {
  import opened Powers
  import opened Limbs
  import opened Arith
  import opened ArithMul
  import opened ArithShift
  import opened ArithDiv

  // -------------------------------------------------------------------- decoding

  function Mantissa(c: Limb): nat {
    c % 0x80_0000
  }

  function Size(c: Limb): nat {
    c / 0x100_0000
  }

  predicate SignBit(c: Limb) {
    c / 0x80_0000 % 2 == 1
  }

  /** The mantissa, without the digits that a small exponent cuts off. */
  function Digits(c: Limb): nat {
    DivNonNegative(Mantissa(c), Pow2(8 * if Size(c) <= 3 then 3 - Size(c) else 0));
    if Size(c) <= 3 then Mantissa(c) / Pow2(8 * (3 - Size(c))) else Mantissa(c)
  }

  function Decode(c: Limb): nat {
    if Size(c) <= 3 then Digits(c) else Digits(c) * Pow2(8 * (Size(c) - 3)) % Pow2(256)
  }

  predicate Negative(c: Limb) {
    Digits(c) != 0 && SignBit(c)
  }

  predicate Overflow(c: Limb) {
    Digits(c) != 0 && (Size(c) > 34 || (Digits(c) > 0xff && Size(c) > 33) || (Digits(c) > 0xffff && Size(c) > 32))
  }

  /** The overflow flag is exact: it is set when the number does not fit into 256 bits. */
  lemma OverflowIsExact(c: Limb)
    ensures Overflow(c) <==> Size(c) > 3 && Digits(c) * Pow2(8 * (Size(c) - 3)) >= Pow2(256)
  {
    hide Pow2;
    var d, e := Digits(c), Size(c);
    if e > 3 {
      var p := Pow2(8 * (e - 3));
      Pow2Words();
      if d == 0 {
      } else if e > 34 {
        Pow2Grows(256, 8 * (e - 3));
        MulMono(1, d, p);
      } else {
        Pow2Add(8 * (35 - e), 8 * (e - 3));
        Threshold(d, Pow2(8 * (35 - e)), p);
        FewBytes(35 - e);
      }
    } else {
      SmallDigits(c);
    }
  }

  lemma Threshold(d: nat, t: nat, p: nat)
    requires p >= 1
    ensures d * p >= t * p <==> d >= t
  {
    if d >= t {
      MulMono(t, d, p);
    } else {
      MulMono(d + 1, t, p);
      Distribute(d, 1, 0, p);
    }
  }

  lemma FewBytes(k: nat)
    ensures k == 0 ==> Pow2(8 * k) == 1
    ensures k == 1 ==> Pow2(8 * k) == 0x100
    ensures k == 2 ==> Pow2(8 * k) == 0x1_0000
    ensures k >= 3 ==> Pow2(8 * k) >= 0x100_0000
  {
    Pow2Words();
    if k >= 3 {
      Pow2Grows(24, 8 * k);
    }
  }

  /** Small exponents cannot overflow. */
  lemma SmallDigits(c: Limb)
    ensures Size(c) <= 3 ==> !Overflow(c)
  {
  }

  // -------------------------------------------------------------------- encoding

  function BitLen(x: nat): nat {
    if x == 0 then 0 else 1 + BitLen(x / 2)
  }

  lemma {:induction false} BitLenIsBits(x: nat)
    ensures IsBits(x, BitLen(x))
  {
    if x > 0 {
      BitLenIsBits(x / 2);
    }
  }

  /** How many bytes a number takes. */
  function Bytes(x: nat): nat {
    (BitLen(x) + 7) / 8
  }

  ghost predicate IsBytes(x: nat, s: nat) {
    x < Pow2(8 * s) && (s > 0 ==> Pow2(8 * (s - 1)) <= x)
  }

  lemma BytesIsBytes(x: nat)
    ensures IsBytes(x, Bytes(x))
  {
    hide Pow2;
    var n, s := BitLen(x), Bytes(x);
    BitLenIsBits(x);
    Pow2Grows(n, 8 * s);
    if s > 0 {
      Pow2Grows(8 * (s - 1), n - 1);
    }
  }

  lemma BytesUnique(x: nat, s: nat)
    requires IsBytes(x, s)
    ensures Bytes(x) == s
  {
    hide Pow2, Bytes;
    BytesIsBytes(x);
    if s < Bytes(x) {
      Pow2Grows(8 * s, 8 * (Bytes(x) - 1));
    } else if s > Bytes(x) {
      Pow2Grows(8 * Bytes(x), 8 * (s - 1));
    }
  }

  /** The first three bytes. */
  function Lead(x: nat): nat {
    DivNonNegative(x, Pow2(8 * if Bytes(x) <= 3 then 0 else Bytes(x) - 3));
    if Bytes(x) <= 3 then x * Pow2(8 * (3 - Bytes(x))) else x / Pow2(8 * (Bytes(x) - 3))
  }

  lemma LeadCases(x: nat)
    ensures Lead(x) == if Bytes(x) <= 3 then x * Pow2(8 * (3 - Bytes(x))) else x / Pow2(8 * (Bytes(x) - 3))
  {
  }

  /** The first byte is never zero, and three bytes are 24 bits. */
  lemma LeadRange(x: nat)
    ensures Lead(x) < 0x100_0000 && (x == 0 <==> Lead(x) == 0) && (x > 0 ==> Lead(x) >= 0x1_0000)
  {
    hide Pow2, Bytes;
    var s := Bytes(x);
    BytesIsBytes(x);
    Pow2Words();
    PowerOfNothing();
    if s <= 3 {
      var p := Pow2(8 * (3 - s));
      Pow2Add(8 * s, 8 * (3 - s));
      MulMono(x + 1, Pow2(8 * s), p);
      Distribute(x, 1, 0, p);
      if s > 0 {
        Pow2Add(8 * (s - 1), 8 * (3 - s));
        MulMono(Pow2(8 * (s - 1)), x, p);
      }
    } else {
      var u := Pow2(8 * (s - 3));
      Pow2Add(24, 8 * (s - 3));
      Pow2Add(16, 8 * (s - 3));
      DivBelow(x, u, 0x100_0000);
      DivAbove(x, u, 0x1_0000);
    }
  }

  lemma PowerOfNothing()
    ensures Pow2(0) == 1
  {
  }

  lemma DivAbove(n: nat, d: nat, q: nat)
    requires d > 0 && n >= q * d
    ensures n / d >= q
  {
    MulApart(q - n / d, d);
    assert (q - n / d) * d == q * d - (n / d) * d;
  }

  /** Mantissa and exponent; a mantissa that would set the sign bit gives up its last byte. */
  function Parts(x: nat): (nat, nat) {
    if Lead(x) >= 0x80_0000 then (Lead(x) / 0x100, Bytes(x) + 1) else (Lead(x), Bytes(x))
  }

  lemma PartsFit(x: nat)
    requires x < Pow2(256)
    ensures Parts(x).0 < 0x80_0000 && Parts(x).1 <= 33
  {
    hide Pow2, Bytes, Lead;
    LeadRange(x);
    BytesIsBytes(x);
    if Bytes(x) > 32 {
      Pow2Grows(256, 8 * (Bytes(x) - 1));
    }
  }

  function Encode(x: nat, negative: bool): Limb
    requires x < Pow2(256)
  {
    PartsFit(x);
    var (m, s) := Parts(x);
    s * 0x100_0000 + (if negative && m != 0 then 0x80_0000 else 0) + m
  }

  /** The fields of an encoding. */
  lemma Fields(x: nat, negative: bool)
    requires x < Pow2(256)
    ensures var c := Encode(x, negative);
            Mantissa(c) == Parts(x).0 && Size(c) == Parts(x).1 && (SignBit(c) <==> negative && Parts(x).0 != 0)
  {
    hide Pow2, Parts;
    PartsFit(x);
  }

  // ------------------------------------------------------------------ round trips

  /** Short numbers are encoded exactly. */
  lemma ShortIsExact(x: nat, negative: bool)
    requires x < Pow2(256) && Bytes(x) < 3
    ensures Digits(Encode(x, negative)) == x == Decode(Encode(x, negative)) && Size(Encode(x, negative)) <= 3
  {
    hide Pow2, Bytes, Encode;
    var s := Bytes(x);
    Fields(x, negative);
    Pow2Words();
    var p, q := Pow2(8 * (3 - s)), Pow2(8 * (2 - s));
    Pow2Add(8, 8 * (2 - s));
    ShortAlgebra(x, p, q);
  }

  lemma ShortAlgebra(x: nat, p: nat, q: nat)
    requires q >= 1 && p == 0x100 * q
    ensures x * p / p == x && x * p / 0x100 == x * q && x * q / q == x
  {
    DivUnique(x * p, p, x, 0);
    DivUnique(x * q, q, x, 0);
    assert x * (0x100 * q) == (x * q) * 0x100;
    DivUnique(x * p, 0x100, x * q, 0);
  }

  /** The weight of the last digit that is kept of a number of three bytes or more. */
  function Unit(x: nat): (r: nat)
    requires Bytes(x) >= 3
    ensures r >= 1
  {
    Pow2(8 * (Parts(x).1 - 3))
  }

  /** A number without what is below its unit. */
  function Cut(x: nat): nat
    requires Bytes(x) >= 3
  {
    DivNonNegative(x, Unit(x));
    var k: nat := x / Unit(x);
    k * Unit(x)
  }

  /** Longer numbers are cut off below a unit of which they hold at least 2^15. */
  lemma LongIsCut(x: nat, negative: bool)
    requires x < Pow2(256) && Bytes(x) >= 3
    ensures Parts(x).0 == x / Unit(x) && x >= 0x8000 * Unit(x)
    ensures Size(Encode(x, negative)) == Parts(x).1 >= 3
  {
    hide Pow2, Bytes, Encode;
    var s := Bytes(x);
    Fields(x, negative);
    var u := Pow2(8 * (s - 3));
    LeadIs(x);
    LeadRange(x);
    DivTimes(x, u);
    if Lead(x) >= 0x80_0000 {
      Pow2Words();
      Pow2Add(8, 8 * (s - 3));
      DivDiv(x, u, 0x100);
      MulMono(0x80_0000, Lead(x), u);
    } else {
      MulMono(0x1_0000, Lead(x), u);
    }
  }

  lemma LeadIs(x: nat)
    requires Bytes(x) >= 3
    ensures Lead(x) == x / Pow2(8 * (Bytes(x) - 3)) && Parts(x).1 >= 3 && x > 0
  {
    hide Bytes;
    PowerOfNothing();
    BytesIsBytes(x);
  }

  lemma DivTimes(x: nat, u: nat)
    requires u > 0
    ensures (x / u) * u <= x < (x / u) * u + u
  {
  }

  lemma DivDiv(x: nat, u: nat, v: nat)
    requires u > 0 && v > 0
    ensures u * v > 0 && x / u / v == x / (u * v) && v * u == u * v
  {
    var a := x / u;
    var b, r := a / v, a % v;
    MulMono(1, u, v);
    MulMono(r + 1, v, u);
    Distribute(r, 1, 0, u);
    Distribute(b * v, r, 0, u);
    assert b * v * u == b * (u * v);
    assert x == b * (u * v) + (r * u + x % u);
    assert v * u == u * v;
    DivUnique(x, u * v, b, r * u + x % u);
  }

  /** What an encoding of a longer number stands for. */
  lemma LongDecodes(x: nat, negative: bool)
    requires x < Pow2(256) && Bytes(x) >= 3
    ensures var c := Encode(x, negative);
            && Decode(c) == Cut(x) <= x && !Overflow(c) && Digits(c) == Parts(x).0
  {
    hide Pow2, Bytes, Encode, Parts, Overflow;
    var c, u := Encode(x, negative), Unit(x);
    Fields(x, negative);
    LongIsCut(x, negative);
    DivTimes(x, u);
    OverflowIsExact(c);
    PowerOfNothing();
    if Size(c) == 3 {
      ByOne(Mantissa(c));
    } else {
      ModDrops(Digits(c) * u, Pow2(256), 0, Digits(c) * u);
    }
  }

  lemma ByOne(x: nat)
    ensures x / 1 == x && x * 1 == x
  {
  }

  /**
   * Encoding and decoding cuts a number off by less than one part in 2^15 and
   * flags neither an overflow nor, without a sign, a negative number.
   */
  lemma Truncates(x: nat, negative: bool)
    requires x < Pow2(256)
    ensures var c := Encode(x, negative); var y := Decode(c);
            && y <= x && (x > 0 ==> (x - y) * 0x8000 < x) && !Overflow(c) && (Negative(c) <==> negative && x != 0)
  {
    hide Pow2, Bytes, Encode, Parts, Decode, Overflow;
    var c := Encode(x, negative);
    Fields(x, negative);
    PartsZero(x);
    if Bytes(x) < 3 {
      ShortIsExact(x, negative);
      OverflowIsExact(c);
    } else {
      LongDecodes(x, negative);
      LongIsCut(x, negative);
      DivTimes(x, Unit(x));
    }
  }

  lemma PartsZero(x: nat)
    ensures x == 0 <==> Parts(x).0 == 0
  {
    LeadRange(x);
  }

  /** Cutting off does not change the length or the kept digits. */
  lemma CutKeepsParts(x: nat)
    requires Bytes(x) >= 3
    ensures Parts(Cut(x)) == Parts(x)
  {
    hide Pow2, Bytes;
    var s := Bytes(x);
    var u := Pow2(8 * (s - 3));
    LeadIs(x);
    LeadRange(x);
    BytesIsBytes(x);
    Pow2Words();
    Pow2Add(24, 8 * (s - 3));
    Pow2Add(16, 8 * (s - 3));
    if Lead(x) < 0x80_0000 {
      MulMono(0x1_0000, Lead(x), u);
      DivTimes(x, u);
      SameParts(x, Lead(x) * u, Lead(x));
    } else {
      Pow2Add(8, 8 * (s - 3));
      DivDiv(x, u, 0x100);
      DivTimes(x, u * 0x100);
      var k := Lead(x) / 0x100;
      assert k * (u * 0x100) == (k * 0x100) * u;
      MulMono(0x1_0000, k * 0x100, u);
      SameParts(x, k * 0x100 * u, k * 0x100);
    }
  }

  lemma SameParts(x: nat, y: nat, m: nat)
    requires Bytes(x) >= 3 && y <= x && y == m * Pow2(8 * (Bytes(x) - 3)) >= Pow2(8 * (Bytes(x) - 1))
    ensures Bytes(y) == Bytes(x) && Lead(y) == m
  {
    hide Pow2, Bytes;
    var u := Pow2(8 * (Bytes(x) - 3));
    BytesIsBytes(x);
    BytesUnique(y, Bytes(x));
    LeadIs(y);
    DivUnique(y, u, m, 0);
  }

  /** Encoding again what was decoded gives the same encoding. */
  lemma EncodingIsStable(x: nat)
    requires x < Pow2(256)
    ensures Decode(Encode(x, false)) < Pow2(256) && Encode(Decode(Encode(x, false)), false) == Encode(x, false)
  {
    hide Pow2, Bytes, Parts, Decode, Digits;
    Truncates(x, false);
    if Bytes(x) < 3 {
      ShortIsExact(x, false);
    } else {
      LongDecodes(x, false);
      CutKeepsParts(x);
    }
  }

  // ------------------------------------------------------------------ the operations

  const WIDTH: nat := 8

  /** pn := v for a number of at most 64 bits. */
  method Assign(pn: array<Limb>, v: nat)
    requires pn.Length >= 2 && v < B * B
    modifies pn
    ensures Val(pn[..]) == v
  {
    hide ValTo, Base;
    DivBelow(v, B, B);
    DivNonNegative(v, B);
    var high: Limb := v / B;
    pn[0] := v % B;
    pn[1] := high;
    for i := 2 to pn.Length
      invariant pn[0] == v % B && pn[1] == high && forall j :: 2 <= j < i ==> pn[j] == 0
    {
      pn[i] := 0;
    }
    LowLimbs(pn[..]);
    ValHigh(pn[..], 2, pn.Length);
  }

  lemma LowLimbs(s: seq<Limb>)
    requires |s| >= 2
    ensures ValTo(s, 2) == s[0] + s[1] * B && Base(2) == B * B
  {
    assert Base(0) == 1 && Base(1) == B;
    assert ValTo(s, 1) == s[0];
  }

  /** The lowest 64 bits. */
  method GetLow64(pn: array<Limb>) returns (r: nat)
    requires pn.Length >= 2
    ensures r == Val(pn[..]) % (B * B)
  {
    hide ValTo, Base, Or;
    WordOr(pn[0], pn[1]);
    r := Or(pn[0], pn[1] * B);
    LowLimbs(pn[..]);
    ghost var h := HighPart(pn[..], 2, pn.Length);
    ValBound(pn[..], 2);
    ModDrops(Val(pn[..]), B * B, h, r);
  }

  lemma WordOr(x: Limb, y: Limb)
    ensures Or(x, y * B) == x + y * B
  {
    hide Or;
    Pow2Words();
    assert y * B == B * y;
    MultipleOf(B, y);
    OrDisjoint(x, y * B, 32);
  }

  /** Sets the number a compact form stands for, and says whether it was negative or too big. */
  method SetCompact(pn: array<Limb>, nCompact: Limb) returns (negative: bool, overflow: bool)
    requires pn.Length == WIDTH
    modifies pn
    ensures Val(pn[..]) == Decode(nCompact) && negative == Negative(nCompact) && overflow == Overflow(nCompact)
  {
    hide ValTo, Base, Pow2;
    var nSize, nWord := Size(nCompact), Mantissa(nCompact);
    if nSize <= 3 {
      nWord := Digits(nCompact);
      FewDigits(nCompact);
      Assign(pn, nWord);
    } else {
      Assign(pn, nWord);
      BaseIsPow2(WIDTH);
      ShiftLeft(pn, 8 * (nSize - 3));
    }
    negative := nWord != 0 && SignBit(nCompact);
    overflow := nWord != 0 && (nSize > 34 || (nWord > 0xff && nSize > 33) || (nWord > 0xffff && nSize > 32));
  }

  lemma FewDigits(c: Limb)
    ensures Digits(c) <= Mantissa(c) < B * B
  {
    DivBelow(Mantissa(c), Pow2(8 * if Size(c) <= 3 then 3 - Size(c) else 0), Mantissa(c) + 1) by {
      MulMono(1, Pow2(8 * if Size(c) <= 3 then 3 - Size(c) else 0), Mantissa(c) + 1);
    }
  }

  /** The first three bytes of a number, and how many it has. */
  method Leading(pn: array<Limb>) returns (nCompact: nat, nSize: nat)
    requires pn.Length == WIDTH
    ensures nCompact == Lead(Val(pn[..])) && nSize == Bytes(Val(pn[..]))
  {
    hide ValTo, Base, Pow2, BitLen, Lead;
    ghost var x := Val(pn[..]);
    var bits := Bits(pn);
    BitLenIsBits(x);
    BitsUnique(x, bits, BitLen(x));
    LeadRange(x);
    LeadCases(x);
    ModDrops(Lead(x), B, 0, Lead(x));
    nSize := (bits + 7) / 8;
    if nSize <= 3 {
      SmallNumber(x);
      ModDrops(x, B * B, 0, x);
      var low := GetLow64(pn);
      nCompact := low * Pow2(8 * (3 - nSize)) % B;
    } else {
      var bn := Copy(pn);
      ShiftRight(bn, 8 * (nSize - 3));
      ModDrops(Lead(x), B * B, 0, Lead(x));
      var low := GetLow64(bn);
      nCompact := low % B;
    }
  }

  /** The compact form of a number. */
  method GetCompact(pn: array<Limb>, negative: bool) returns (c: nat)
    requires pn.Length == WIDTH
    ensures Val(pn[..]) < Pow2(256) && c == Encode(Val(pn[..]), negative)
  {
    hide ValTo, Base, Pow2, Or, BitLen, Bytes, Lead;
    ghost var x := Val(pn[..]);
    ValBound(pn[..], WIDTH);
    BaseIsPow2(WIDTH);
    LeadRange(x);
    PartsFit(x);
    var nCompact, nSize := Leading(pn);
    if nCompact / 0x80_0000 % 2 == 1 {
      nCompact := nCompact / 0x100;
      nSize := nSize + 1;
    }
    FieldsOr(nCompact, nSize, negative);
    c := Or(nCompact, nSize * 0x100_0000);
    c := Or(c, if negative && nCompact != 0 then 0x80_0000 else 0);
  }

  lemma SmallNumber(x: nat)
    requires Bytes(x) <= 3
    ensures x < 0x100_0000
  {
    hide Bytes;
    BytesIsBytes(x);
    Pow2Words();
    Pow2Grows(8 * Bytes(x), 24);
  }

  /** The three fields do not overlap. */
  lemma FieldsOr(m: nat, s: nat, negative: bool)
    requires m < 0x80_0000
    ensures var sign := if negative && m != 0 then 0x80_0000 else 0;
            Or(m, s * 0x100_0000) == m + s * 0x100_0000 && Or(m + s * 0x100_0000, sign) == m + s * 0x100_0000 + sign
  {
    hide Or, Pow2;
    Pow2Words();
    var c := m + s * 0x100_0000;
    OrDisjoint(m, s * 0x100_0000, 24);
    SetBitOr(c, s, m);
    OrNothing(c);
  }

  lemma OrNothing(x: nat)
    ensures Or(x, 0) == x
  {
  }

  /** Setting a clear bit adds its weight. */
  lemma {:induction false} OrBit(c: nat, k: nat)
    requires c / Pow2(k) % 2 == 0
    ensures Or(c, Pow2(k)) == c + Pow2(k)
  {
    if k > 0 {
      DivDiv(c, 2, Pow2(k - 1));
      OrBit(c / 2, k - 1);
    }
  }

  lemma SetBitOr(c: nat, s: nat, m: nat)
    requires m < 0x80_0000 && c == m + s * 0x100_0000
    ensures Or(c, 0x80_0000) == c + 0x80_0000
  {
    hide Pow2, Or;
    Pow2Words();
    DivUnique(c, 0x80_0000, 2 * s, m);
    OrBit(c, 23);
  }
}
