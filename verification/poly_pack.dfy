/** The bit-packing of polynomials in poly.c of the ML-DSA reference code:
    `polyeta_pack`/`polyeta_unpack` (η = 2 and η = 4), `polyt1_pack`/
    `polyt1_unpack`, `polyt0_pack`/`polyt0_unpack` and `polyz_pack`/
    `polyz_unpack` (γ1 = 2^17 and γ1 = 2^19), the BitPack and SimpleBitPack
    encodings of section 7.1 of FIPS 204.

    Every format cuts the polynomial into groups of a few coefficients,
    maps each coefficient to a field of a fixed width (the offset minus the
    coefficient, or the coefficient itself for t1) and lays the fields of a
    group out little-endian in a few bytes. The shifts and masks of each
    group are written out as in the source; the cutting into groups and the
    round-trip argument are shared. */
module PolyPack {
  import opened MlDsaParams

  datatype Format = Eta2Format | Eta4Format | T1Format | T0Format | Z17Format | Z19Format

  /** Coefficients per group. */
  function GroupCoeffs(f: Format): nat
  {
    match f
    case Eta2Format => 8
    case Eta4Format => 2
    case T1Format => 4
    case T0Format => 8
    case Z17Format => 4
    case Z19Format => 2
  }

  /** Bytes per group. */
  function GroupBytes(f: Format): nat
  {
    match f
    case Eta2Format => 3
    case Eta4Format => 1
    case T1Format => 5
    case T0Format => 13
    case Z17Format => 9
    case Z19Format => 5
  }

  /** One past the largest field value: 2 to the field width. */
  function Limit(f: Format): bv32
  {
    match f
    case Eta2Format => 8
    case Eta4Format => 16
    case T1Format => 0x400
    case T0Format => 0x2000
    case Z17Format => 0x4_0000
    case Z19Format => 0x10_0000
  }

  /** The field before any narrowing: the offset minus the coefficient,
      computed modulo 2^32 as the source's unsigned arithmetic does; t1
      stores the coefficient itself. */
  function Raw(f: Format, c: bv32): bv32
  {
    match f
    case Eta2Format => 2 - c
    case Eta4Format => 4 - c
    case T1Format => c
    case T0Format => 0x1000 - c
    case Z17Format => 0x2_0000 - c
    case Z19Format => 0x8_0000 - c
  }

  /** The field as the packer holds it: the η packers keep it in a
      `uint8_t`, the others in a `uint32_t`. */
  function Field(f: Format, c: bv32): bv32
  {
    if f == Eta2Format || f == Eta4Format then Raw(f, c) & 0xFF else Raw(f, c)
  }

  /** The coefficient the unpacker makes of a field. */
  function Coeff(f: Format, x: bv32): bv32
  {
    match f
    case Eta2Format => 2 - x
    case Eta4Format => 4 - x
    case T1Format => x
    case T0Format => 0x1000 - x
    case Z17Format => 0x2_0000 - x
    case Z19Format => 0x8_0000 - x
  }

  /** The coefficients a format can carry: those whose field fits its width. */
  predicate InRange(f: Format, c: bv32)
  {
    Raw(f, c) < Limit(f)
  }

  /** Packing a coefficient the format carries and unpacking the field
      gives it back. */
  lemma FieldThenCoeff(f: Format, c: bv32)
    requires InRange(f, c)
    ensures Field(f, c) < Limit(f) && Coeff(f, Field(f, c)) == c
  {
    match f
    case Eta2Format => FieldThenCoeffAtEta2(c);
    case Eta4Format => FieldThenCoeffAtEta4(c);
    case T1Format => FieldThenCoeffAtT1(c);
    case T0Format => FieldThenCoeffAtT0(c);
    case Z17Format => FieldThenCoeffAtZ17(c);
    case Z19Format => FieldThenCoeffAtZ19(c);
  }

  /** Unpacking any field and packing the coefficient gives the field back. */
  lemma CoeffThenField(f: Format, x: bv32)
    requires x < Limit(f)
    ensures InRange(f, Coeff(f, x)) && Field(f, Coeff(f, x)) == x
  {
    match f
    case Eta2Format => CoeffThenFieldAtEta2(x);
    case Eta4Format => CoeffThenFieldAtEta4(x);
    case T1Format => CoeffThenFieldAtT1(x);
    case T0Format => CoeffThenFieldAtT0(x);
    case Z17Format => CoeffThenFieldAtZ17(x);
    case Z19Format => CoeffThenFieldAtZ19(x);
  }

  /** The ranges the formats are documented for are exactly the ones they
      carry, except η, whose 3- and 4-bit fields also carry [η-7, η] and
      [η-15, η]. */
  lemma InRangeMeaning(f: Format, c: bv32)
    ensures InRange(f, c) <==> SignedWithin(c, MinMagnitude(f), Max(f))
  {
    match f
    case Eta2Format => InRangeAtEta2(c);
    case Eta4Format => InRangeAtEta4(c);
    case T1Format => InRangeAtT1(c);
    case T0Format => InRangeAtT0(c);
    case Z17Format => InRangeAtZ17(c);
    case Z19Format => InRangeAtZ19(c);
  }

  /** The magnitude of the most negative coefficient a format carries. */
  function MinMagnitude(f: Format): (m: bv32)
    ensures m < 0x8000_0000
  {
    match f
    case Eta2Format => 5
    case Eta4Format => 11
    case T1Format => 0
    case T0Format => 0xFFF
    case Z17Format => 0x1_FFFF
    case Z19Format => 0x7_FFFF
  }

  /** The largest coefficient a format carries. */
  function Max(f: Format): (m: bv32)
    ensures m < 0x8000_0000
  {
    match f
    case Eta2Format => 2
    case Eta4Format => 4
    case T1Format => 1023
    case T0Format => 0x1000
    case Z17Format => 0x2_0000
    case Z19Format => 0x8_0000
  }

  lemma FieldThenCoeffAtEta2(c: bv32)
    requires InRange(Eta2Format, c)
    ensures Field(Eta2Format, c) < Limit(Eta2Format) && Coeff(Eta2Format, Field(Eta2Format, c)) == c
  {
  }

  lemma CoeffThenFieldAtEta2(x: bv32)
    requires x < Limit(Eta2Format)
    ensures InRange(Eta2Format, Coeff(Eta2Format, x)) && Field(Eta2Format, Coeff(Eta2Format, x)) == x
  {
  }

  lemma InRangeAtEta2(c: bv32)
    ensures InRange(Eta2Format, c) <==> SignedWithin(c, 5, 2)
  {
  }

  lemma FieldThenCoeffAtEta4(c: bv32)
    requires InRange(Eta4Format, c)
    ensures Field(Eta4Format, c) < Limit(Eta4Format) && Coeff(Eta4Format, Field(Eta4Format, c)) == c
  {
  }

  lemma CoeffThenFieldAtEta4(x: bv32)
    requires x < Limit(Eta4Format)
    ensures InRange(Eta4Format, Coeff(Eta4Format, x)) && Field(Eta4Format, Coeff(Eta4Format, x)) == x
  {
  }

  lemma InRangeAtEta4(c: bv32)
    ensures InRange(Eta4Format, c) <==> SignedWithin(c, 11, 4)
  {
  }

  lemma FieldThenCoeffAtT1(c: bv32)
    requires InRange(T1Format, c)
    ensures Field(T1Format, c) < Limit(T1Format) && Coeff(T1Format, Field(T1Format, c)) == c
  {
  }

  lemma CoeffThenFieldAtT1(x: bv32)
    requires x < Limit(T1Format)
    ensures InRange(T1Format, Coeff(T1Format, x)) && Field(T1Format, Coeff(T1Format, x)) == x
  {
  }

  lemma InRangeAtT1(c: bv32)
    ensures InRange(T1Format, c) <==> SignedWithin(c, 0, 1023)
  {
  }

  lemma FieldThenCoeffAtT0(c: bv32)
    requires InRange(T0Format, c)
    ensures Field(T0Format, c) < Limit(T0Format) && Coeff(T0Format, Field(T0Format, c)) == c
  {
  }

  lemma CoeffThenFieldAtT0(x: bv32)
    requires x < Limit(T0Format)
    ensures InRange(T0Format, Coeff(T0Format, x)) && Field(T0Format, Coeff(T0Format, x)) == x
  {
  }

  lemma InRangeAtT0(c: bv32)
    ensures InRange(T0Format, c) <==> SignedWithin(c, 0xFFF, 0x1000)
  {
  }

  lemma FieldThenCoeffAtZ17(c: bv32)
    requires InRange(Z17Format, c)
    ensures Field(Z17Format, c) < Limit(Z17Format) && Coeff(Z17Format, Field(Z17Format, c)) == c
  {
  }

  lemma CoeffThenFieldAtZ17(x: bv32)
    requires x < Limit(Z17Format)
    ensures InRange(Z17Format, Coeff(Z17Format, x)) && Field(Z17Format, Coeff(Z17Format, x)) == x
  {
  }

  lemma InRangeAtZ17(c: bv32)
    ensures InRange(Z17Format, c) <==> SignedWithin(c, 0x1_FFFF, 0x2_0000)
  {
  }

  lemma FieldThenCoeffAtZ19(c: bv32)
    requires InRange(Z19Format, c)
    ensures Field(Z19Format, c) < Limit(Z19Format) && Coeff(Z19Format, Field(Z19Format, c)) == c
  {
  }

  lemma CoeffThenFieldAtZ19(x: bv32)
    requires x < Limit(Z19Format)
    ensures InRange(Z19Format, Coeff(Z19Format, x)) && Field(Z19Format, Coeff(Z19Format, x)) == x
  {
  }

  lemma InRangeAtZ19(c: bv32)
    ensures InRange(Z19Format, c) <==> SignedWithin(c, 0x7_FFFF, 0x8_0000)
  {
  }

  // The byte layout of one group of each format, as the source writes it:
  // one function per output byte and per unpacked field.

  // Eta2: 8 coefficients in 3 bytes.
  function Eta2Byte0(t0: bv32, t1: bv32, t2: bv32): byte { Lo8(t0 | (t1 << 3) | (t2 << 6)) }
  function Eta2Byte1(t2: bv32, t3: bv32, t4: bv32, t5: bv32): byte { Lo8((t2 >> 2) | (t3 << 1) | (t4 << 4) | (t5 << 7)) }
  function Eta2Byte2(t5: bv32, t6: bv32, t7: bv32): byte { Lo8((t5 >> 1) | (t6 << 2) | (t7 << 5)) }
  function Eta2Field0(a0: byte): bv32 { W(a0) & 7 }
  function Eta2Field1(a0: byte): bv32 { (W(a0) >> 3) & 7 }
  function Eta2Field2(a0: byte, a1: byte): bv32 { ((W(a0) >> 6) | (W(a1) << 2)) & 7 }
  function Eta2Field3(a1: byte): bv32 { (W(a1) >> 1) & 7 }
  function Eta2Field4(a1: byte): bv32 { (W(a1) >> 4) & 7 }
  function Eta2Field5(a1: byte, a2: byte): bv32 { ((W(a1) >> 7) | (W(a2) << 1)) & 7 }
  function Eta2Field6(a2: byte): bv32 { (W(a2) >> 2) & 7 }
  function Eta2Field7(a2: byte): bv32 { (W(a2) >> 5) & 7 }

  function Eta2Group(t: seq<bv32>): seq<byte>
    requires |t| == 8
  {
    [Eta2Byte0(t[0], t[1], t[2]),
     Eta2Byte1(t[2], t[3], t[4], t[5]),
     Eta2Byte2(t[5], t[6], t[7])]
  }

  function Eta2Ungroup(a: seq<byte>): seq<bv32>
    requires |a| == 3
  {
    [Eta2Field0(a[0]),
     Eta2Field1(a[0]),
     Eta2Field2(a[0], a[1]),
     Eta2Field3(a[1]),
     Eta2Field4(a[1]),
     Eta2Field5(a[1], a[2]),
     Eta2Field6(a[2]),
     Eta2Field7(a[2])]
  }

  lemma Eta2BackByte0(a0: byte, a1: byte)
    ensures Eta2Byte0(Eta2Field0(a0), Eta2Field1(a0), Eta2Field2(a0, a1)) == a0
  {
  }

  lemma Eta2BackByte1(a0: byte, a1: byte, a2: byte)
    ensures Eta2Byte1(Eta2Field2(a0, a1), Eta2Field3(a1), Eta2Field4(a1), Eta2Field5(a1, a2)) == a1
  {
  }

  lemma Eta2BackByte2(a1: byte, a2: byte)
    ensures Eta2Byte2(Eta2Field5(a1, a2), Eta2Field6(a2), Eta2Field7(a2)) == a2
  {
  }

  lemma Eta2FieldFits0(a0: byte)
    ensures Eta2Field0(a0) < 8
  {
  }

  lemma Eta2FieldFits1(a0: byte)
    ensures Eta2Field1(a0) < 8
  {
  }

  lemma Eta2FieldFits2(a0: byte, a1: byte)
    ensures Eta2Field2(a0, a1) < 8
  {
  }

  lemma Eta2FieldFits3(a1: byte)
    ensures Eta2Field3(a1) < 8
  {
  }

  lemma Eta2FieldFits4(a1: byte)
    ensures Eta2Field4(a1) < 8
  {
  }

  lemma Eta2FieldFits5(a1: byte, a2: byte)
    ensures Eta2Field5(a1, a2) < 8
  {
  }

  lemma Eta2FieldFits6(a2: byte)
    ensures Eta2Field6(a2) < 8
  {
  }

  lemma Eta2FieldFits7(a2: byte)
    ensures Eta2Field7(a2) < 8
  {
  }

  lemma Eta2FieldBack0(t0: bv32, t1: bv32, t2: bv32)
    requires t0 < 8 && t1 < 8 && t2 < 8
    ensures Eta2Field0(Eta2Byte0(t0, t1, t2)) == t0
  {
  }

  lemma Eta2FieldBack1(t0: bv32, t1: bv32, t2: bv32)
    requires t0 < 8 && t1 < 8 && t2 < 8
    ensures Eta2Field1(Eta2Byte0(t0, t1, t2)) == t1
  {
  }

  lemma Eta2FieldBack2(t0: bv32, t1: bv32, t2: bv32, t3: bv32, t4: bv32, t5: bv32)
    requires t0 < 8 && t1 < 8 && t2 < 8 && t3 < 8 && t4 < 8 && t5 < 8
    ensures Eta2Field2(Eta2Byte0(t0, t1, t2), Eta2Byte1(t2, t3, t4, t5)) == t2
  {
  }

  lemma Eta2FieldBack3(t2: bv32, t3: bv32, t4: bv32, t5: bv32)
    requires t2 < 8 && t3 < 8 && t4 < 8 && t5 < 8
    ensures Eta2Field3(Eta2Byte1(t2, t3, t4, t5)) == t3
  {
  }

  lemma Eta2FieldBack4(t2: bv32, t3: bv32, t4: bv32, t5: bv32)
    requires t2 < 8 && t3 < 8 && t4 < 8 && t5 < 8
    ensures Eta2Field4(Eta2Byte1(t2, t3, t4, t5)) == t4
  {
  }

  lemma Eta2FieldBack5(t2: bv32, t3: bv32, t4: bv32, t5: bv32, t6: bv32, t7: bv32)
    requires t2 < 8 && t3 < 8 && t4 < 8 && t5 < 8 && t6 < 8 && t7 < 8
    ensures Eta2Field5(Eta2Byte1(t2, t3, t4, t5), Eta2Byte2(t5, t6, t7)) == t5
  {
  }

  lemma Eta2FieldBack6(t5: bv32, t6: bv32, t7: bv32)
    requires t5 < 8 && t6 < 8 && t7 < 8
    ensures Eta2Field6(Eta2Byte2(t5, t6, t7)) == t6
  {
  }

  lemma Eta2FieldBack7(t5: bv32, t6: bv32, t7: bv32)
    requires t5 < 8 && t6 < 8 && t7 < 8
    ensures Eta2Field7(Eta2Byte2(t5, t6, t7)) == t7
  {
  }

  lemma Eta2AllFit(t: seq<bv32>)
    requires |t| == 8 && t[0] < 8 && t[1] < 8 && t[2] < 8 && t[3] < 8 && t[4] < 8 && t[5] < 8 && t[6] < 8 && t[7] < 8
    ensures forall i :: 0 <= i < 8 ==> t[i] < 8
  {
    forall i | 0 <= i < 8
      ensures t[i] < 8
    {
      if i == 0 {} else if i == 1 {} else if i == 2 {} else if i == 3 {} else if i == 4 {} else if i == 5 {} else if i == 6 {} else {}
    }
  }

  lemma Eta2RoundTrip(t: seq<bv32>)
    requires |t| == 8 && forall i :: 0 <= i < 8 ==> t[i] < 8
    ensures Eta2Ungroup(Eta2Group(t)) == t
  {
    assert t == [t[0], t[1], t[2], t[3], t[4], t[5], t[6], t[7]];
    Eta2FieldBack0(t[0], t[1], t[2]);
    Eta2FieldBack1(t[0], t[1], t[2]);
    Eta2FieldBack2(t[0], t[1], t[2], t[3], t[4], t[5]);
    Eta2FieldBack3(t[2], t[3], t[4], t[5]);
    Eta2FieldBack4(t[2], t[3], t[4], t[5]);
    Eta2FieldBack5(t[2], t[3], t[4], t[5], t[6], t[7]);
    Eta2FieldBack6(t[5], t[6], t[7]);
    Eta2FieldBack7(t[5], t[6], t[7]);
  }

  lemma Eta2BackFits(a: seq<byte>)
    requires |a| == 3
    ensures var t := Eta2Ungroup(a); forall i :: 0 <= i < 8 ==> t[i] < 8
  {
    Eta2FieldFits0(a[0]);
    Eta2FieldFits1(a[0]);
    Eta2FieldFits2(a[0], a[1]);
    Eta2FieldFits3(a[1]);
    Eta2FieldFits4(a[1]);
    Eta2FieldFits5(a[1], a[2]);
    Eta2FieldFits6(a[2]);
    Eta2FieldFits7(a[2]);
    Eta2AllFit(Eta2Ungroup(a));
  }

  lemma Eta2BackBytes(a: seq<byte>)
    requires |a| == 3
    ensures Eta2Group(Eta2Ungroup(a)) == a
  {
    assert a == [a[0], a[1], a[2]];
    Eta2BackByte0(a[0], a[1]);
    Eta2BackByte1(a[0], a[1], a[2]);
    Eta2BackByte2(a[1], a[2]);
  }

  lemma Eta2Back(a: seq<byte>)
    requires |a| == 3
    ensures var t := Eta2Ungroup(a); (forall i :: 0 <= i < 8 ==> t[i] < 8) && Eta2Group(t) == a
  {
    Eta2BackFits(a);
    Eta2BackBytes(a);
  }

  // Eta4: 2 coefficients in 1 byte.
  function Eta4Byte0(t0: bv32, t1: bv32): byte { Lo8(t0 | (t1 << 4)) }
  function Eta4Field0(a0: byte): bv32 { W(a0) & 0x0F }
  function Eta4Field1(a0: byte): bv32 { W(a0) >> 4 }

  function Eta4Group(t: seq<bv32>): seq<byte>
    requires |t| == 2
  {
    [Eta4Byte0(t[0], t[1])]
  }

  function Eta4Ungroup(a: seq<byte>): seq<bv32>
    requires |a| == 1
  {
    [Eta4Field0(a[0]),
     Eta4Field1(a[0])]
  }

  lemma Eta4BackByte0(a0: byte)
    ensures Eta4Byte0(Eta4Field0(a0), Eta4Field1(a0)) == a0
  {
  }

  lemma Eta4FieldFits0(a0: byte)
    ensures Eta4Field0(a0) < 16
  {
  }

  lemma Eta4FieldFits1(a0: byte)
    ensures Eta4Field1(a0) < 16
  {
  }

  lemma Eta4FieldBack0(t0: bv32, t1: bv32)
    requires t0 < 16 && t1 < 16
    ensures Eta4Field0(Eta4Byte0(t0, t1)) == t0
  {
  }

  lemma Eta4FieldBack1(t0: bv32, t1: bv32)
    requires t0 < 16 && t1 < 16
    ensures Eta4Field1(Eta4Byte0(t0, t1)) == t1
  {
  }

  lemma Eta4AllFit(t: seq<bv32>)
    requires |t| == 2 && t[0] < 16 && t[1] < 16
    ensures forall i :: 0 <= i < 2 ==> t[i] < 16
  {
    forall i | 0 <= i < 2
      ensures t[i] < 16
    {
      if i == 0 {} else {}
    }
  }

  lemma Eta4RoundTrip(t: seq<bv32>)
    requires |t| == 2 && forall i :: 0 <= i < 2 ==> t[i] < 16
    ensures Eta4Ungroup(Eta4Group(t)) == t
  {
    assert t == [t[0], t[1]];
    Eta4FieldBack0(t[0], t[1]);
    Eta4FieldBack1(t[0], t[1]);
  }

  lemma Eta4BackFits(a: seq<byte>)
    requires |a| == 1
    ensures var t := Eta4Ungroup(a); forall i :: 0 <= i < 2 ==> t[i] < 16
  {
    Eta4FieldFits0(a[0]);
    Eta4FieldFits1(a[0]);
    Eta4AllFit(Eta4Ungroup(a));
  }

  lemma Eta4BackBytes(a: seq<byte>)
    requires |a| == 1
    ensures Eta4Group(Eta4Ungroup(a)) == a
  {
    assert a == [a[0]];
    Eta4BackByte0(a[0]);
  }

  lemma Eta4Back(a: seq<byte>)
    requires |a| == 1
    ensures var t := Eta4Ungroup(a); (forall i :: 0 <= i < 2 ==> t[i] < 16) && Eta4Group(t) == a
  {
    Eta4BackFits(a);
    Eta4BackBytes(a);
  }

  // T1: 4 coefficients in 5 bytes.
  function T1Byte0(t0: bv32): byte { Lo8(t0 >> 0) }
  function T1Byte1(t0: bv32, t1: bv32): byte { Lo8((t0 >> 8) | (t1 << 2)) }
  function T1Byte2(t1: bv32, t2: bv32): byte { Lo8((t1 >> 6) | (t2 << 4)) }
  function T1Byte3(t2: bv32, t3: bv32): byte { Lo8((t2 >> 4) | (t3 << 6)) }
  function T1Byte4(t3: bv32): byte { Lo8(t3 >> 2) }
  function T1Field0(a0: byte, a1: byte): bv32 { ((W(a0) >> 0) | (W(a1) << 8)) & 0x3FF }
  function T1Field1(a1: byte, a2: byte): bv32 { ((W(a1) >> 2) | (W(a2) << 6)) & 0x3FF }
  function T1Field2(a2: byte, a3: byte): bv32 { ((W(a2) >> 4) | (W(a3) << 4)) & 0x3FF }
  function T1Field3(a3: byte, a4: byte): bv32 { ((W(a3) >> 6) | (W(a4) << 2)) & 0x3FF }

  function T1Group(t: seq<bv32>): seq<byte>
    requires |t| == 4
  {
    [T1Byte0(t[0]),
     T1Byte1(t[0], t[1]),
     T1Byte2(t[1], t[2]),
     T1Byte3(t[2], t[3]),
     T1Byte4(t[3])]
  }

  function T1Ungroup(a: seq<byte>): seq<bv32>
    requires |a| == 5
  {
    [T1Field0(a[0], a[1]),
     T1Field1(a[1], a[2]),
     T1Field2(a[2], a[3]),
     T1Field3(a[3], a[4])]
  }

  lemma T1BackByte0(a0: byte, a1: byte)
    ensures T1Byte0(T1Field0(a0, a1)) == a0
  {
  }

  lemma T1BackByte1(a0: byte, a1: byte, a2: byte)
    ensures T1Byte1(T1Field0(a0, a1), T1Field1(a1, a2)) == a1
  {
  }

  lemma T1BackByte2(a1: byte, a2: byte, a3: byte)
    ensures T1Byte2(T1Field1(a1, a2), T1Field2(a2, a3)) == a2
  {
  }

  lemma T1BackByte3(a2: byte, a3: byte, a4: byte)
    ensures T1Byte3(T1Field2(a2, a3), T1Field3(a3, a4)) == a3
  {
  }

  lemma T1BackByte4(a3: byte, a4: byte)
    ensures T1Byte4(T1Field3(a3, a4)) == a4
  {
  }

  lemma T1FieldFits0(a0: byte, a1: byte)
    ensures T1Field0(a0, a1) < 0x400
  {
  }

  lemma T1FieldFits1(a1: byte, a2: byte)
    ensures T1Field1(a1, a2) < 0x400
  {
  }

  lemma T1FieldFits2(a2: byte, a3: byte)
    ensures T1Field2(a2, a3) < 0x400
  {
  }

  lemma T1FieldFits3(a3: byte, a4: byte)
    ensures T1Field3(a3, a4) < 0x400
  {
  }

  lemma T1FieldBack0(t0: bv32, t1: bv32)
    requires t0 < 0x400 && t1 < 0x400
    ensures T1Field0(T1Byte0(t0), T1Byte1(t0, t1)) == t0
  {
  }

  lemma T1FieldBack1(t0: bv32, t1: bv32, t2: bv32)
    requires t0 < 0x400 && t1 < 0x400 && t2 < 0x400
    ensures T1Field1(T1Byte1(t0, t1), T1Byte2(t1, t2)) == t1
  {
  }

  lemma T1FieldBack2(t1: bv32, t2: bv32, t3: bv32)
    requires t1 < 0x400 && t2 < 0x400 && t3 < 0x400
    ensures T1Field2(T1Byte2(t1, t2), T1Byte3(t2, t3)) == t2
  {
  }

  lemma T1FieldBack3(t2: bv32, t3: bv32)
    requires t2 < 0x400 && t3 < 0x400
    ensures T1Field3(T1Byte3(t2, t3), T1Byte4(t3)) == t3
  {
  }

  lemma T1AllFit(t: seq<bv32>)
    requires |t| == 4 && t[0] < 0x400 && t[1] < 0x400 && t[2] < 0x400 && t[3] < 0x400
    ensures forall i :: 0 <= i < 4 ==> t[i] < 0x400
  {
    forall i | 0 <= i < 4
      ensures t[i] < 0x400
    {
      if i == 0 {} else if i == 1 {} else if i == 2 {} else {}
    }
  }

  lemma T1RoundTrip(t: seq<bv32>)
    requires |t| == 4 && forall i :: 0 <= i < 4 ==> t[i] < 0x400
    ensures T1Ungroup(T1Group(t)) == t
  {
    assert t == [t[0], t[1], t[2], t[3]];
    T1FieldBack0(t[0], t[1]);
    T1FieldBack1(t[0], t[1], t[2]);
    T1FieldBack2(t[1], t[2], t[3]);
    T1FieldBack3(t[2], t[3]);
  }

  lemma T1BackFits(a: seq<byte>)
    requires |a| == 5
    ensures var t := T1Ungroup(a); forall i :: 0 <= i < 4 ==> t[i] < 0x400
  {
    T1FieldFits0(a[0], a[1]);
    T1FieldFits1(a[1], a[2]);
    T1FieldFits2(a[2], a[3]);
    T1FieldFits3(a[3], a[4]);
    T1AllFit(T1Ungroup(a));
  }

  lemma T1BackBytes(a: seq<byte>)
    requires |a| == 5
    ensures T1Group(T1Ungroup(a)) == a
  {
    assert a == [a[0], a[1], a[2], a[3], a[4]];
    T1BackByte0(a[0], a[1]);
    T1BackByte1(a[0], a[1], a[2]);
    T1BackByte2(a[1], a[2], a[3]);
    T1BackByte3(a[2], a[3], a[4]);
    T1BackByte4(a[3], a[4]);
  }

  lemma T1Back(a: seq<byte>)
    requires |a| == 5
    ensures var t := T1Ungroup(a); (forall i :: 0 <= i < 4 ==> t[i] < 0x400) && T1Group(t) == a
  {
    T1BackFits(a);
    T1BackBytes(a);
  }

  // T0: 8 coefficients in 13 bytes.
  function T0Byte0(t0: bv32): byte { Lo8(t0) }
  function T0Byte1(t0: bv32, t1: bv32): byte { Lo8((t0 >> 8) | (t1 << 5)) }
  function T0Byte2(t1: bv32): byte { Lo8(t1 >> 3) }
  function T0Byte3(t1: bv32, t2: bv32): byte { Lo8((t1 >> 11) | (t2 << 2)) }
  function T0Byte4(t2: bv32, t3: bv32): byte { Lo8((t2 >> 6) | (t3 << 7)) }
  function T0Byte5(t3: bv32): byte { Lo8(t3 >> 1) }
  function T0Byte6(t3: bv32, t4: bv32): byte { Lo8((t3 >> 9) | (t4 << 4)) }
  function T0Byte7(t4: bv32): byte { Lo8(t4 >> 4) }
  function T0Byte8(t4: bv32, t5: bv32): byte { Lo8((t4 >> 12) | (t5 << 1)) }
  function T0Byte9(t5: bv32, t6: bv32): byte { Lo8((t5 >> 7) | (t6 << 6)) }
  function T0Byte10(t6: bv32): byte { Lo8(t6 >> 2) }
  function T0Byte11(t6: bv32, t7: bv32): byte { Lo8((t6 >> 10) | (t7 << 3)) }
  function T0Byte12(t7: bv32): byte { Lo8(t7 >> 5) }
  function T0Field0(a0: byte, a1: byte): bv32 { (W(a0) | (W(a1) << 8)) & 0x1FFF }
  function T0Field1(a1: byte, a2: byte, a3: byte): bv32 { ((W(a1) >> 5) | (W(a2) << 3) | (W(a3) << 11)) & 0x1FFF }
  function T0Field2(a3: byte, a4: byte): bv32 { ((W(a3) >> 2) | (W(a4) << 6)) & 0x1FFF }
  function T0Field3(a4: byte, a5: byte, a6: byte): bv32 { ((W(a4) >> 7) | (W(a5) << 1) | (W(a6) << 9)) & 0x1FFF }
  function T0Field4(a6: byte, a7: byte, a8: byte): bv32 { ((W(a6) >> 4) | (W(a7) << 4) | (W(a8) << 12)) & 0x1FFF }
  function T0Field5(a8: byte, a9: byte): bv32 { ((W(a8) >> 1) | (W(a9) << 7)) & 0x1FFF }
  function T0Field6(a9: byte, a10: byte, a11: byte): bv32 { ((W(a9) >> 6) | (W(a10) << 2) | (W(a11) << 10)) & 0x1FFF }
  function T0Field7(a11: byte, a12: byte): bv32 { ((W(a11) >> 3) | (W(a12) << 5)) & 0x1FFF }

  function T0Group(t: seq<bv32>): seq<byte>
    requires |t| == 8
  {
    [T0Byte0(t[0]),
     T0Byte1(t[0], t[1]),
     T0Byte2(t[1]),
     T0Byte3(t[1], t[2]),
     T0Byte4(t[2], t[3]),
     T0Byte5(t[3]),
     T0Byte6(t[3], t[4]),
     T0Byte7(t[4]),
     T0Byte8(t[4], t[5]),
     T0Byte9(t[5], t[6]),
     T0Byte10(t[6]),
     T0Byte11(t[6], t[7]),
     T0Byte12(t[7])]
  }

  function T0Ungroup(a: seq<byte>): seq<bv32>
    requires |a| == 13
  {
    [T0Field0(a[0], a[1]),
     T0Field1(a[1], a[2], a[3]),
     T0Field2(a[3], a[4]),
     T0Field3(a[4], a[5], a[6]),
     T0Field4(a[6], a[7], a[8]),
     T0Field5(a[8], a[9]),
     T0Field6(a[9], a[10], a[11]),
     T0Field7(a[11], a[12])]
  }

  lemma T0BackByte0(a0: byte, a1: byte)
    ensures T0Byte0(T0Field0(a0, a1)) == a0
  {
  }

  lemma T0BackByte1(a0: byte, a1: byte, a2: byte, a3: byte)
    ensures T0Byte1(T0Field0(a0, a1), T0Field1(a1, a2, a3)) == a1
  {
  }

  lemma T0BackByte2(a1: byte, a2: byte, a3: byte)
    ensures T0Byte2(T0Field1(a1, a2, a3)) == a2
  {
  }

  lemma T0BackByte3(a1: byte, a2: byte, a3: byte, a4: byte)
    ensures T0Byte3(T0Field1(a1, a2, a3), T0Field2(a3, a4)) == a3
  {
  }

  lemma T0BackByte4(a3: byte, a4: byte, a5: byte, a6: byte)
    ensures T0Byte4(T0Field2(a3, a4), T0Field3(a4, a5, a6)) == a4
  {
  }

  lemma T0BackByte5(a4: byte, a5: byte, a6: byte)
    ensures T0Byte5(T0Field3(a4, a5, a6)) == a5
  {
  }

  lemma T0BackByte6(a4: byte, a5: byte, a6: byte, a7: byte, a8: byte)
    ensures T0Byte6(T0Field3(a4, a5, a6), T0Field4(a6, a7, a8)) == a6
  {
  }

  lemma T0BackByte7(a6: byte, a7: byte, a8: byte)
    ensures T0Byte7(T0Field4(a6, a7, a8)) == a7
  {
  }

  lemma T0BackByte8(a6: byte, a7: byte, a8: byte, a9: byte)
    ensures T0Byte8(T0Field4(a6, a7, a8), T0Field5(a8, a9)) == a8
  {
  }

  lemma T0BackByte9(a8: byte, a9: byte, a10: byte, a11: byte)
    ensures T0Byte9(T0Field5(a8, a9), T0Field6(a9, a10, a11)) == a9
  {
  }

  lemma T0BackByte10(a9: byte, a10: byte, a11: byte)
    ensures T0Byte10(T0Field6(a9, a10, a11)) == a10
  {
  }

  lemma T0BackByte11(a9: byte, a10: byte, a11: byte, a12: byte)
    ensures T0Byte11(T0Field6(a9, a10, a11), T0Field7(a11, a12)) == a11
  {
  }

  lemma T0BackByte12(a11: byte, a12: byte)
    ensures T0Byte12(T0Field7(a11, a12)) == a12
  {
  }

  lemma T0FieldFits0(a0: byte, a1: byte)
    ensures T0Field0(a0, a1) < 0x2000
  {
  }

  lemma T0FieldFits1(a1: byte, a2: byte, a3: byte)
    ensures T0Field1(a1, a2, a3) < 0x2000
  {
  }

  lemma T0FieldFits2(a3: byte, a4: byte)
    ensures T0Field2(a3, a4) < 0x2000
  {
  }

  lemma T0FieldFits3(a4: byte, a5: byte, a6: byte)
    ensures T0Field3(a4, a5, a6) < 0x2000
  {
  }

  lemma T0FieldFits4(a6: byte, a7: byte, a8: byte)
    ensures T0Field4(a6, a7, a8) < 0x2000
  {
  }

  lemma T0FieldFits5(a8: byte, a9: byte)
    ensures T0Field5(a8, a9) < 0x2000
  {
  }

  lemma T0FieldFits6(a9: byte, a10: byte, a11: byte)
    ensures T0Field6(a9, a10, a11) < 0x2000
  {
  }

  lemma T0FieldFits7(a11: byte, a12: byte)
    ensures T0Field7(a11, a12) < 0x2000
  {
  }

  lemma T0FieldBack0(t0: bv32, t1: bv32)
    requires t0 < 0x2000 && t1 < 0x2000
    ensures T0Field0(T0Byte0(t0), T0Byte1(t0, t1)) == t0
  {
  }

  lemma T0FieldBack1(t0: bv32, t1: bv32, t2: bv32)
    requires t0 < 0x2000 && t1 < 0x2000 && t2 < 0x2000
    ensures T0Field1(T0Byte1(t0, t1), T0Byte2(t1), T0Byte3(t1, t2)) == t1
  {
  }

  lemma T0FieldBack2(t1: bv32, t2: bv32, t3: bv32)
    requires t1 < 0x2000 && t2 < 0x2000 && t3 < 0x2000
    ensures T0Field2(T0Byte3(t1, t2), T0Byte4(t2, t3)) == t2
  {
  }

  lemma T0FieldBack3(t2: bv32, t3: bv32, t4: bv32)
    requires t2 < 0x2000 && t3 < 0x2000 && t4 < 0x2000
    ensures T0Field3(T0Byte4(t2, t3), T0Byte5(t3), T0Byte6(t3, t4)) == t3
  {
  }

  lemma T0FieldBack4(t3: bv32, t4: bv32, t5: bv32)
    requires t3 < 0x2000 && t4 < 0x2000 && t5 < 0x2000
    ensures T0Field4(T0Byte6(t3, t4), T0Byte7(t4), T0Byte8(t4, t5)) == t4
  {
  }

  lemma T0FieldBack5(t4: bv32, t5: bv32, t6: bv32)
    requires t4 < 0x2000 && t5 < 0x2000 && t6 < 0x2000
    ensures T0Field5(T0Byte8(t4, t5), T0Byte9(t5, t6)) == t5
  {
  }

  lemma T0FieldBack6(t5: bv32, t6: bv32, t7: bv32)
    requires t5 < 0x2000 && t6 < 0x2000 && t7 < 0x2000
    ensures T0Field6(T0Byte9(t5, t6), T0Byte10(t6), T0Byte11(t6, t7)) == t6
  {
  }

  lemma T0FieldBack7(t6: bv32, t7: bv32)
    requires t6 < 0x2000 && t7 < 0x2000
    ensures T0Field7(T0Byte11(t6, t7), T0Byte12(t7)) == t7
  {
  }

  lemma T0AllFit(t: seq<bv32>)
    requires |t| == 8 && t[0] < 0x2000 && t[1] < 0x2000 && t[2] < 0x2000 && t[3] < 0x2000 && t[4] < 0x2000 && t[5] < 0x2000 && t[6] < 0x2000 && t[7] < 0x2000
    ensures forall i :: 0 <= i < 8 ==> t[i] < 0x2000
  {
    forall i | 0 <= i < 8
      ensures t[i] < 0x2000
    {
      if i == 0 {} else if i == 1 {} else if i == 2 {} else if i == 3 {} else if i == 4 {} else if i == 5 {} else if i == 6 {} else {}
    }
  }

  lemma T0RoundTrip(t: seq<bv32>)
    requires |t| == 8 && forall i :: 0 <= i < 8 ==> t[i] < 0x2000
    ensures T0Ungroup(T0Group(t)) == t
  {
    assert t == [t[0], t[1], t[2], t[3], t[4], t[5], t[6], t[7]];
    T0FieldBack0(t[0], t[1]);
    T0FieldBack1(t[0], t[1], t[2]);
    T0FieldBack2(t[1], t[2], t[3]);
    T0FieldBack3(t[2], t[3], t[4]);
    T0FieldBack4(t[3], t[4], t[5]);
    T0FieldBack5(t[4], t[5], t[6]);
    T0FieldBack6(t[5], t[6], t[7]);
    T0FieldBack7(t[6], t[7]);
  }

  lemma T0BackFits(a: seq<byte>)
    requires |a| == 13
    ensures var t := T0Ungroup(a); forall i :: 0 <= i < 8 ==> t[i] < 0x2000
  {
    T0FieldFits0(a[0], a[1]);
    T0FieldFits1(a[1], a[2], a[3]);
    T0FieldFits2(a[3], a[4]);
    T0FieldFits3(a[4], a[5], a[6]);
    T0FieldFits4(a[6], a[7], a[8]);
    T0FieldFits5(a[8], a[9]);
    T0FieldFits6(a[9], a[10], a[11]);
    T0FieldFits7(a[11], a[12]);
    T0AllFit(T0Ungroup(a));
  }

  lemma T0BackBytes(a: seq<byte>)
    requires |a| == 13
    ensures T0Group(T0Ungroup(a)) == a
  {
    assert a == [a[0], a[1], a[2], a[3], a[4], a[5], a[6], a[7], a[8], a[9], a[10], a[11], a[12]];
    T0BackByte0(a[0], a[1]);
    T0BackByte1(a[0], a[1], a[2], a[3]);
    T0BackByte2(a[1], a[2], a[3]);
    T0BackByte3(a[1], a[2], a[3], a[4]);
    T0BackByte4(a[3], a[4], a[5], a[6]);
    T0BackByte5(a[4], a[5], a[6]);
    T0BackByte6(a[4], a[5], a[6], a[7], a[8]);
    T0BackByte7(a[6], a[7], a[8]);
    T0BackByte8(a[6], a[7], a[8], a[9]);
    T0BackByte9(a[8], a[9], a[10], a[11]);
    T0BackByte10(a[9], a[10], a[11]);
    T0BackByte11(a[9], a[10], a[11], a[12]);
    T0BackByte12(a[11], a[12]);
  }

  lemma T0Back(a: seq<byte>)
    requires |a| == 13
    ensures var t := T0Ungroup(a); (forall i :: 0 <= i < 8 ==> t[i] < 0x2000) && T0Group(t) == a
  {
    T0BackFits(a);
    T0BackBytes(a);
  }

  // Z17: 4 coefficients in 9 bytes.
  function Z17Byte0(t0: bv32): byte { Lo8(t0) }
  function Z17Byte1(t0: bv32): byte { Lo8(t0 >> 8) }
  function Z17Byte2(t0: bv32, t1: bv32): byte { Lo8((t0 >> 16) | (t1 << 2)) }
  function Z17Byte3(t1: bv32): byte { Lo8(t1 >> 6) }
  function Z17Byte4(t1: bv32, t2: bv32): byte { Lo8((t1 >> 14) | (t2 << 4)) }
  function Z17Byte5(t2: bv32): byte { Lo8(t2 >> 4) }
  function Z17Byte6(t2: bv32, t3: bv32): byte { Lo8((t2 >> 12) | (t3 << 6)) }
  function Z17Byte7(t3: bv32): byte { Lo8(t3 >> 2) }
  function Z17Byte8(t3: bv32): byte { Lo8(t3 >> 10) }
  function Z17Field0(a0: byte, a1: byte, a2: byte): bv32 { (W(a0) | (W(a1) << 8) | (W(a2) << 16)) & 0x3FFFF }
  function Z17Field1(a2: byte, a3: byte, a4: byte): bv32 { ((W(a2) >> 2) | (W(a3) << 6) | (W(a4) << 14)) & 0x3FFFF }
  function Z17Field2(a4: byte, a5: byte, a6: byte): bv32 { ((W(a4) >> 4) | (W(a5) << 4) | (W(a6) << 12)) & 0x3FFFF }
  function Z17Field3(a6: byte, a7: byte, a8: byte): bv32 { ((W(a6) >> 6) | (W(a7) << 2) | (W(a8) << 10)) & 0x3FFFF }

  function Z17Group(t: seq<bv32>): seq<byte>
    requires |t| == 4
  {
    [Z17Byte0(t[0]),
     Z17Byte1(t[0]),
     Z17Byte2(t[0], t[1]),
     Z17Byte3(t[1]),
     Z17Byte4(t[1], t[2]),
     Z17Byte5(t[2]),
     Z17Byte6(t[2], t[3]),
     Z17Byte7(t[3]),
     Z17Byte8(t[3])]
  }

  function Z17Ungroup(a: seq<byte>): seq<bv32>
    requires |a| == 9
  {
    [Z17Field0(a[0], a[1], a[2]),
     Z17Field1(a[2], a[3], a[4]),
     Z17Field2(a[4], a[5], a[6]),
     Z17Field3(a[6], a[7], a[8])]
  }

  lemma Z17BackByte0(a0: byte, a1: byte, a2: byte)
    ensures Z17Byte0(Z17Field0(a0, a1, a2)) == a0
  {
  }

  lemma Z17BackByte1(a0: byte, a1: byte, a2: byte)
    ensures Z17Byte1(Z17Field0(a0, a1, a2)) == a1
  {
  }

  lemma Z17BackByte2(a0: byte, a1: byte, a2: byte, a3: byte, a4: byte)
    ensures Z17Byte2(Z17Field0(a0, a1, a2), Z17Field1(a2, a3, a4)) == a2
  {
  }

  lemma Z17BackByte3(a2: byte, a3: byte, a4: byte)
    ensures Z17Byte3(Z17Field1(a2, a3, a4)) == a3
  {
  }

  lemma Z17BackByte4(a2: byte, a3: byte, a4: byte, a5: byte, a6: byte)
    ensures Z17Byte4(Z17Field1(a2, a3, a4), Z17Field2(a4, a5, a6)) == a4
  {
  }

  lemma Z17BackByte5(a4: byte, a5: byte, a6: byte)
    ensures Z17Byte5(Z17Field2(a4, a5, a6)) == a5
  {
  }

  lemma Z17BackByte6(a4: byte, a5: byte, a6: byte, a7: byte, a8: byte)
    ensures Z17Byte6(Z17Field2(a4, a5, a6), Z17Field3(a6, a7, a8)) == a6
  {
  }

  lemma Z17BackByte7(a6: byte, a7: byte, a8: byte)
    ensures Z17Byte7(Z17Field3(a6, a7, a8)) == a7
  {
  }

  lemma Z17BackByte8(a6: byte, a7: byte, a8: byte)
    ensures Z17Byte8(Z17Field3(a6, a7, a8)) == a8
  {
  }

  lemma Z17FieldFits0(a0: byte, a1: byte, a2: byte)
    ensures Z17Field0(a0, a1, a2) < 0x4_0000
  {
  }

  lemma Z17FieldFits1(a2: byte, a3: byte, a4: byte)
    ensures Z17Field1(a2, a3, a4) < 0x4_0000
  {
  }

  lemma Z17FieldFits2(a4: byte, a5: byte, a6: byte)
    ensures Z17Field2(a4, a5, a6) < 0x4_0000
  {
  }

  lemma Z17FieldFits3(a6: byte, a7: byte, a8: byte)
    ensures Z17Field3(a6, a7, a8) < 0x4_0000
  {
  }

  lemma Z17FieldBack0(t0: bv32, t1: bv32)
    requires t0 < 0x4_0000 && t1 < 0x4_0000
    ensures Z17Field0(Z17Byte0(t0), Z17Byte1(t0), Z17Byte2(t0, t1)) == t0
  {
  }

  lemma Z17FieldBack1(t0: bv32, t1: bv32, t2: bv32)
    requires t0 < 0x4_0000 && t1 < 0x4_0000 && t2 < 0x4_0000
    ensures Z17Field1(Z17Byte2(t0, t1), Z17Byte3(t1), Z17Byte4(t1, t2)) == t1
  {
  }

  lemma Z17FieldBack2(t1: bv32, t2: bv32, t3: bv32)
    requires t1 < 0x4_0000 && t2 < 0x4_0000 && t3 < 0x4_0000
    ensures Z17Field2(Z17Byte4(t1, t2), Z17Byte5(t2), Z17Byte6(t2, t3)) == t2
  {
  }

  lemma Z17FieldBack3(t2: bv32, t3: bv32)
    requires t2 < 0x4_0000 && t3 < 0x4_0000
    ensures Z17Field3(Z17Byte6(t2, t3), Z17Byte7(t3), Z17Byte8(t3)) == t3
  {
  }

  lemma Z17AllFit(t: seq<bv32>)
    requires |t| == 4 && t[0] < 0x4_0000 && t[1] < 0x4_0000 && t[2] < 0x4_0000 && t[3] < 0x4_0000
    ensures forall i :: 0 <= i < 4 ==> t[i] < 0x4_0000
  {
    forall i | 0 <= i < 4
      ensures t[i] < 0x4_0000
    {
      if i == 0 {} else if i == 1 {} else if i == 2 {} else {}
    }
  }

  lemma Z17RoundTrip(t: seq<bv32>)
    requires |t| == 4 && forall i :: 0 <= i < 4 ==> t[i] < 0x4_0000
    ensures Z17Ungroup(Z17Group(t)) == t
  {
    assert t == [t[0], t[1], t[2], t[3]];
    Z17FieldBack0(t[0], t[1]);
    Z17FieldBack1(t[0], t[1], t[2]);
    Z17FieldBack2(t[1], t[2], t[3]);
    Z17FieldBack3(t[2], t[3]);
  }

  lemma Z17BackFits(a: seq<byte>)
    requires |a| == 9
    ensures var t := Z17Ungroup(a); forall i :: 0 <= i < 4 ==> t[i] < 0x4_0000
  {
    Z17FieldFits0(a[0], a[1], a[2]);
    Z17FieldFits1(a[2], a[3], a[4]);
    Z17FieldFits2(a[4], a[5], a[6]);
    Z17FieldFits3(a[6], a[7], a[8]);
    Z17AllFit(Z17Ungroup(a));
  }

  lemma Z17BackBytes(a: seq<byte>)
    requires |a| == 9
    ensures Z17Group(Z17Ungroup(a)) == a
  {
    assert a == [a[0], a[1], a[2], a[3], a[4], a[5], a[6], a[7], a[8]];
    Z17BackByte0(a[0], a[1], a[2]);
    Z17BackByte1(a[0], a[1], a[2]);
    Z17BackByte2(a[0], a[1], a[2], a[3], a[4]);
    Z17BackByte3(a[2], a[3], a[4]);
    Z17BackByte4(a[2], a[3], a[4], a[5], a[6]);
    Z17BackByte5(a[4], a[5], a[6]);
    Z17BackByte6(a[4], a[5], a[6], a[7], a[8]);
    Z17BackByte7(a[6], a[7], a[8]);
    Z17BackByte8(a[6], a[7], a[8]);
  }

  lemma Z17Back(a: seq<byte>)
    requires |a| == 9
    ensures var t := Z17Ungroup(a); (forall i :: 0 <= i < 4 ==> t[i] < 0x4_0000) && Z17Group(t) == a
  {
    Z17BackFits(a);
    Z17BackBytes(a);
  }

  // Z19: 2 coefficients in 5 bytes.
  function Z19Byte0(t0: bv32): byte { Lo8(t0) }
  function Z19Byte1(t0: bv32): byte { Lo8(t0 >> 8) }
  function Z19Byte2(t0: bv32, t1: bv32): byte { Lo8((t0 >> 16) | (t1 << 4)) }
  function Z19Byte3(t1: bv32): byte { Lo8(t1 >> 4) }
  function Z19Byte4(t1: bv32): byte { Lo8(t1 >> 12) }
  function Z19Field0(a0: byte, a1: byte, a2: byte): bv32 { (W(a0) | (W(a1) << 8) | (W(a2) << 16)) & 0xFFFFF }
  function Z19Field1(a2: byte, a3: byte, a4: byte): bv32 { (W(a2) >> 4) | (W(a3) << 4) | (W(a4) << 12) }

  function Z19Group(t: seq<bv32>): seq<byte>
    requires |t| == 2
  {
    [Z19Byte0(t[0]),
     Z19Byte1(t[0]),
     Z19Byte2(t[0], t[1]),
     Z19Byte3(t[1]),
     Z19Byte4(t[1])]
  }

  function Z19Ungroup(a: seq<byte>): seq<bv32>
    requires |a| == 5
  {
    [Z19Field0(a[0], a[1], a[2]),
     Z19Field1(a[2], a[3], a[4])]
  }

  lemma Z19BackByte0(a0: byte, a1: byte, a2: byte)
    ensures Z19Byte0(Z19Field0(a0, a1, a2)) == a0
  {
  }

  lemma Z19BackByte1(a0: byte, a1: byte, a2: byte)
    ensures Z19Byte1(Z19Field0(a0, a1, a2)) == a1
  {
  }

  lemma Z19BackByte2(a0: byte, a1: byte, a2: byte, a3: byte, a4: byte)
    ensures Z19Byte2(Z19Field0(a0, a1, a2), Z19Field1(a2, a3, a4)) == a2
  {
  }

  lemma Z19BackByte3(a2: byte, a3: byte, a4: byte)
    ensures Z19Byte3(Z19Field1(a2, a3, a4)) == a3
  {
  }

  lemma Z19BackByte4(a2: byte, a3: byte, a4: byte)
    ensures Z19Byte4(Z19Field1(a2, a3, a4)) == a4
  {
  }

  lemma Z19FieldFits0(a0: byte, a1: byte, a2: byte)
    ensures Z19Field0(a0, a1, a2) < 0x10_0000
  {
  }

  lemma Z19FieldFits1(a2: byte, a3: byte, a4: byte)
    ensures Z19Field1(a2, a3, a4) < 0x10_0000
  {
  }

  lemma Z19FieldBack0(t0: bv32, t1: bv32)
    requires t0 < 0x10_0000 && t1 < 0x10_0000
    ensures Z19Field0(Z19Byte0(t0), Z19Byte1(t0), Z19Byte2(t0, t1)) == t0
  {
  }

  lemma Z19FieldBack1(t0: bv32, t1: bv32)
    requires t0 < 0x10_0000 && t1 < 0x10_0000
    ensures Z19Field1(Z19Byte2(t0, t1), Z19Byte3(t1), Z19Byte4(t1)) == t1
  {
  }

  lemma Z19AllFit(t: seq<bv32>)
    requires |t| == 2 && t[0] < 0x10_0000 && t[1] < 0x10_0000
    ensures forall i :: 0 <= i < 2 ==> t[i] < 0x10_0000
  {
    forall i | 0 <= i < 2
      ensures t[i] < 0x10_0000
    {
      if i == 0 {} else {}
    }
  }

  lemma Z19RoundTrip(t: seq<bv32>)
    requires |t| == 2 && forall i :: 0 <= i < 2 ==> t[i] < 0x10_0000
    ensures Z19Ungroup(Z19Group(t)) == t
  {
    assert t == [t[0], t[1]];
    Z19FieldBack0(t[0], t[1]);
    Z19FieldBack1(t[0], t[1]);
  }

  lemma Z19BackFits(a: seq<byte>)
    requires |a| == 5
    ensures var t := Z19Ungroup(a); forall i :: 0 <= i < 2 ==> t[i] < 0x10_0000
  {
    Z19FieldFits0(a[0], a[1], a[2]);
    Z19FieldFits1(a[2], a[3], a[4]);
    Z19AllFit(Z19Ungroup(a));
  }

  lemma Z19BackBytes(a: seq<byte>)
    requires |a| == 5
    ensures Z19Group(Z19Ungroup(a)) == a
  {
    assert a == [a[0], a[1], a[2], a[3], a[4]];
    Z19BackByte0(a[0], a[1], a[2]);
    Z19BackByte1(a[0], a[1], a[2]);
    Z19BackByte2(a[0], a[1], a[2], a[3], a[4]);
    Z19BackByte3(a[2], a[3], a[4]);
    Z19BackByte4(a[2], a[3], a[4]);
  }

  lemma Z19Back(a: seq<byte>)
    requires |a| == 5
    ensures var t := Z19Ungroup(a); (forall i :: 0 <= i < 2 ==> t[i] < 0x10_0000) && Z19Group(t) == a
  {
    Z19BackFits(a);
    Z19BackBytes(a);
  }

  function Group(f: Format, t: seq<bv32>): (a: seq<byte>)
    requires |t| == GroupCoeffs(f)
    ensures |a| == GroupBytes(f)
  {
    match f
    case Eta2Format => Eta2Group(t)
    case Eta4Format => Eta4Group(t)
    case T1Format => T1Group(t)
    case T0Format => T0Group(t)
    case Z17Format => Z17Group(t)
    case Z19Format => Z19Group(t)
  }

  function Ungroup(f: Format, a: seq<byte>): (t: seq<bv32>)
    requires |a| == GroupBytes(f)
    ensures |t| == GroupCoeffs(f)
  {
    match f
    case Eta2Format => Eta2Ungroup(a)
    case Eta4Format => Eta4Ungroup(a)
    case T1Format => T1Ungroup(a)
    case T0Format => T0Ungroup(a)
    case Z17Format => Z17Ungroup(a)
    case Z19Format => Z19Ungroup(a)
  }

  predicate FieldsFit(f: Format, t: seq<bv32>)
  {
    forall i :: 0 <= i < |t| ==> t[i] < Limit(f)
  }

  /** Unpacking a packed group gives back its fields, when they fit. */
  lemma GroupRoundTrip(f: Format, t: seq<bv32>)
    requires |t| == GroupCoeffs(f) && FieldsFit(f, t)
    ensures Ungroup(f, Group(f, t)) == t
  {
    match f
    case Eta2Format => Eta2RoundTrip(t);
    case Eta4Format => Eta4RoundTrip(t);
    case T1Format => T1RoundTrip(t);
    case T0Format => T0RoundTrip(t);
    case Z17Format => Z17RoundTrip(t);
    case Z19Format => Z19RoundTrip(t);
  }

  /** Every group of bytes is the packing of the fields it unpacks to, and
      those fields fit: the group layouts use every bit. */
  lemma UngroupRoundTrip(f: Format, a: seq<byte>)
    requires |a| == GroupBytes(f)
    ensures FieldsFit(f, Ungroup(f, a))
    ensures Group(f, Ungroup(f, a)) == a
  {
    match f
    case Eta2Format => Eta2Back(a);
    case Eta4Format => Eta4Back(a);
    case T1Format => T1Back(a);
    case T0Format => T0Back(a);
    case Z17Format => Z17Back(a);
    case Z19Format => Z19Back(a);
  }

  // One group, coefficients to bytes and back, for a format.

  function Fields(f: Format, cs: seq<bv32>): (t: seq<bv32>)
    ensures |t| == |cs|
  {
    seq(|cs|, i requires 0 <= i < |cs| => Field(f, cs[i]))
  }

  function CoeffsOf(f: Format, t: seq<bv32>): (cs: seq<bv32>)
    ensures |cs| == |t|
  {
    seq(|t|, i requires 0 <= i < |t| => Coeff(f, t[i]))
  }

  /** A group of coefficients as bytes; other lengths have no encoding. */
  function EncodeGroup(f: Format, cs: seq<bv32>): seq<byte>
  {
    if |cs| == GroupCoeffs(f) then Group(f, Fields(f, cs)) else []
  }

  /** A group of bytes as coefficients; other lengths have no decoding. */
  function DecodeGroup(f: Format, bs: seq<byte>): seq<bv32>
  {
    if |bs| == GroupBytes(f) then CoeffsOf(f, Ungroup(f, bs)) else []
  }

  /** The fields of carried coefficients fit, and give the coefficients back. */
  lemma FieldsOfCarried(f: Format, cs: seq<bv32>)
    requires forall i :: 0 <= i < |cs| ==> InRange(f, cs[i])
    ensures FieldsFit(f, Fields(f, cs)) && CoeffsOf(f, Fields(f, cs)) == cs
  {
    var t := Fields(f, cs);
    forall i | 0 <= i < |cs|
      ensures t[i] < Limit(f) && Coeff(f, t[i]) == cs[i]
    {
      FieldThenCoeff(f, cs[i]);
    }
  }

  /** The coefficients of fitting fields are carried, and give the fields back. */
  lemma CoeffsOfFitting(f: Format, t: seq<bv32>)
    requires FieldsFit(f, t)
    ensures var cs := CoeffsOf(f, t);
            (forall i :: 0 <= i < |cs| ==> InRange(f, cs[i])) && Fields(f, cs) == t
  {
    var cs := CoeffsOf(f, t);
    forall i | 0 <= i < |t|
      ensures InRange(f, cs[i]) && Field(f, cs[i]) == t[i]
    {
      CoeffThenField(f, t[i]);
    }
  }

  /** One group: the fields of coefficients the format carries survive the
      byte layout, and give the coefficients back. */
  lemma GroupOfCoeffs(f: Format, cs: seq<bv32>)
    requires |cs| == GroupCoeffs(f) && forall i :: 0 <= i < |cs| ==> InRange(f, cs[i])
    ensures DecodeGroup(f, EncodeGroup(f, cs)) == cs
  {
    var t := Fields(f, cs);
    FieldsOfCarried(f, cs);
    GroupRoundTrip(f, t);
  }

  /** One group: bytes decoded and encoded again are unchanged, and decode
      to coefficients the format carries. */
  lemma GroupOfBytes(f: Format, bs: seq<byte>)
    requires |bs| == GroupBytes(f)
    ensures var cs := DecodeGroup(f, bs);
            |cs| == GroupCoeffs(f) && (forall i :: 0 <= i < |cs| ==> InRange(f, cs[i])) &&
            EncodeGroup(f, cs) == bs
  {
    var t := Ungroup(f, bs);
    UngroupRoundTrip(f, bs);
    CoeffsOfFitting(f, t);
  }

  /** A format as the whole-polynomial loops see it: group sizes, the group
      encoding and decoding, and which coefficients it carries. */
  datatype Codec = Codec(k: nat, m: nat, encode: seq<bv32> -> seq<byte>,
                         decode: seq<byte> -> seq<bv32>, carries: bv32 -> bool)

  function CodecOf(f: Format): Codec
  {
    Codec(GroupCoeffs(f), GroupBytes(f), cs => EncodeGroup(f, cs), bs => DecodeGroup(f, bs),
          c => InRange(f, c))
  }

  /** Every group of coefficients encodes to a group of bytes. */
  ghost predicate EncodeSizes(c: Codec)
  {
    forall cs {:trigger c.encode(cs)} :: |cs| == c.k ==> |c.encode(cs)| == c.m
  }

  /** Every group of bytes decodes to a group of coefficients. */
  ghost predicate DecodeSizes(c: Codec)
  {
    forall bs {:trigger c.decode(bs)} :: |bs| == c.m ==> |c.decode(bs)| == c.k
  }

  /** Carried coefficients survive encoding and decoding. */
  ghost predicate DecodesEncoding(c: Codec)
  {
    forall cs {:trigger c.decode(c.encode(cs))} ::
      |cs| == c.k && (forall i :: 0 <= i < |cs| ==> c.carries(cs[i])) ==> c.decode(c.encode(cs)) == cs
  }

  /** Decoding yields only carried coefficients. */
  ghost predicate DecodesCarried(c: Codec)
  {
    forall bs {:trigger c.decode(bs)} ::
      |bs| == c.m ==> forall i :: 0 <= i < |c.decode(bs)| ==> c.carries(c.decode(bs)[i])
  }

  /** Every group of bytes is the encoding of what it decodes to. */
  ghost predicate EncodesDecoding(c: Codec)
  {
    forall bs {:trigger c.encode(c.decode(bs))} :: |bs| == c.m ==> c.encode(c.decode(bs)) == bs
  }

  /** What the loops rely on: groups have the right sizes, carried
      coefficients round-trip, and every byte group is an encoding. */
  ghost predicate ValidCodec(c: Codec)
  {
    EncodeSizes(c) && DecodeSizes(c) && DecodesEncoding(c) && DecodesCarried(c) && EncodesDecoding(c)
  }

  lemma CodecOfValid(f: Format)
    ensures ValidCodec(CodecOf(f))
  {
    CodecOfEncodeSizes(f);
    CodecOfDecodeSizes(f);
    CodecOfDecodesEncoding(f);
    CodecOfDecodesCarried(f);
    CodecOfEncodesDecoding(f);
  }

  lemma CodecOfEncodeSizes(f: Format)
    ensures EncodeSizes(CodecOf(f))
  {
    var c := CodecOf(f);
    forall cs | |cs| == c.k
      ensures |c.encode(cs)| == c.m
    {
      assert c.encode(cs) == EncodeGroup(f, cs);
    }
  }

  lemma CodecOfDecodeSizes(f: Format)
    ensures DecodeSizes(CodecOf(f))
  {
    var c := CodecOf(f);
    forall bs | |bs| == c.m
      ensures |c.decode(bs)| == c.k
    {
      assert c.decode(bs) == DecodeGroup(f, bs);
    }
  }

  lemma CodecOfDecodesEncoding(f: Format)
    ensures DecodesEncoding(CodecOf(f))
  {
    var c := CodecOf(f);
    forall cs | |cs| == c.k && (forall i :: 0 <= i < |cs| ==> c.carries(cs[i]))
      ensures c.decode(c.encode(cs)) == cs
    {
      GroupOfCoeffs(f, cs);
    }
  }

  lemma CodecOfDecodesCarried(f: Format)
    ensures DecodesCarried(CodecOf(f))
  {
    var c := CodecOf(f);
    forall bs | |bs| == c.m
      ensures forall i :: 0 <= i < |c.decode(bs)| ==> c.carries(c.decode(bs)[i])
    {
      GroupOfBytes(f, bs);
    }
  }

  lemma CodecOfEncodesDecoding(f: Format)
    ensures EncodesDecoding(CodecOf(f))
  {
    var c := CodecOf(f);
    forall bs | |bs| == c.m
      ensures c.encode(c.decode(bs)) == bs
    {
      GroupOfBytes(f, bs);
    }
  }

  // Whole polynomials: the loop over groups of the source, as recursion.

  /** The packer: each of the `g` groups of coefficients becomes one group
      of bytes, in order. */
  function Pack(c: Codec, a: seq<bv32>, g: nat): (r: seq<byte>)
    requires ValidCodec(c) && |a| == g * c.k
    ensures |r| == g * c.m
  {
    if g == 0 then [] else GroupsStep(g, c.k, c.m); c.encode(a[..c.k]) + Pack(c, a[c.k..], g - 1)
  }

  /** The unpacker: each of the `g` groups of bytes becomes one group of
      coefficients. */
  function Unpack(c: Codec, b: seq<byte>, g: nat): (a: seq<bv32>)
    requires ValidCodec(c) && |b| == g * c.m
    ensures |a| == g * c.k
  {
    if g == 0 then [] else GroupsStep(g, c.m, c.k); c.decode(b[..c.m]) + Unpack(c, b[c.m..], g - 1)
  }

  /** Peeling one group off `g` groups leaves `g - 1`. */
  lemma GroupsStep(g: nat, k: nat, m: nat)
    requires g > 0
    ensures (g - 1) * k == g * k - k && g * k >= k
    ensures (g - 1) * m == g * m - m && g * m >= m
  {
  }

  predicate AllCarried(c: Codec, a: seq<bv32>)
  {
    forall i :: 0 <= i < |a| ==> c.carries(a[i])
  }

  /** Whatever the bytes, the unpacked coefficients are ones the format
      carries. */
  lemma {:induction false} UnpackCarried(c: Codec, b: seq<byte>, g: nat)
    requires ValidCodec(c) && |b| == g * c.m
    ensures AllCarried(c, Unpack(c, b, g))
  {
    if g > 0 {
      GroupsStep(g, c.m, c.k);
      UnpackCarried(c, b[c.m..], g - 1);
      var head := c.decode(b[..c.m]);
      var a := Unpack(c, b, g);
      assert a == head + Unpack(c, b[c.m..], g - 1);
      forall i | 0 <= i < |a|
        ensures c.carries(a[i])
      {
        if i >= |head| {
          assert a[i] == Unpack(c, b[c.m..], g - 1)[i - |head|];
        }
      }
    }
  }

  /** Unpacking what was packed gives the polynomial back exactly when
      every coefficient is one the format carries. */
  lemma UnpackOfPack(c: Codec, a: seq<bv32>, g: nat)
    requires ValidCodec(c) && |a| == g * c.k
    ensures Unpack(c, Pack(c, a, g), g) == a <==> AllCarried(c, a)
  {
    if AllCarried(c, a) {
      UnpackOfPackCarried(c, a, g);
    }
    UnpackCarried(c, Pack(c, a, g), g);
  }

  lemma {:induction false} UnpackOfPackCarried(c: Codec, a: seq<bv32>, g: nat)
    requires ValidCodec(c) && |a| == g * c.k && AllCarried(c, a)
    ensures Unpack(c, Pack(c, a, g), g) == a
  {
    if g > 0 {
      GroupsStep(g, c.k, c.m);
      var head, tail := a[..c.k], a[c.k..];
      assert AllCarried(c, head) by {
        forall i | 0 <= i < |head| ensures c.carries(head[i]) { assert head[i] == a[i]; }
      }
      assert AllCarried(c, tail) by {
        forall i | 0 <= i < |tail| ensures c.carries(tail[i]) { assert tail[i] == a[i + c.k]; }
      }
      UnpackOfPackCarried(c, tail, g - 1);
      UnpackOfConcat(c, c.encode(head), Pack(c, tail, g - 1), g);
      assert c.decode(c.encode(head)) == head;
      assert head + tail == a;
    }
  }

  /** Unpacking one encoded group followed by `g - 1` more. */
  lemma UnpackOfConcat(c: Codec, e: seq<byte>, rest: seq<byte>, g: nat)
    requires ValidCodec(c) && g > 0 && |e| == c.m && |rest| == (g - 1) * c.m
    ensures |e + rest| == g * c.m
    ensures Unpack(c, e + rest, g) == c.decode(e) + Unpack(c, rest, g - 1)
  {
    GroupsStep(g, c.m, c.k);
    var b := e + rest;
    assert b[..c.m] == e;
    assert b[c.m..] == rest;
  }

  /** Packing what was unpacked gives the bytes back, whatever they are. */
  lemma {:induction false} PackOfUnpack(c: Codec, b: seq<byte>, g: nat)
    requires ValidCodec(c) && |b| == g * c.m
    ensures Pack(c, Unpack(c, b, g), g) == b
  {
    if g > 0 {
      GroupsStep(g, c.m, c.k);
      var a := Unpack(c, b, g);
      var head := c.decode(b[..c.m]);
      assert a[..c.k] == head;
      assert a[c.k..] == Unpack(c, b[c.m..], g - 1);
      PackOfUnpack(c, b[c.m..], g - 1);
      assert b == b[..c.m] + b[c.m..];
    }
  }

  // The routines of poly.c: one polynomial of N coefficients at a time.

  /** How many groups make up a polynomial. */
  function GroupCount(f: Format): (g: nat)
    ensures g * GroupCoeffs(f) == N
  {
    match f
    case Eta2Format => 32
    case Eta4Format => 128
    case T1Format => 64
    case T0Format => 32
    case Z17Format => 64
    case Z19Format => 128
  }

  /** POLYETA_PACKEDBYTES, POLYT1_PACKEDBYTES, POLYT0_PACKEDBYTES and
      POLYZ_PACKEDBYTES for each parameter choice. */
  function PackedBytes(f: Format): (n: nat)
    ensures n == GroupCount(f) * GroupBytes(f)
  {
    match f
    case Eta2Format => 96
    case Eta4Format => 128
    case T1Format => 320
    case T0Format => 416
    case Z17Format => 576
    case Z19Format => 640
  }

  function PolyPackAs(f: Format, a: seq<bv32>): (r: seq<byte>)
    requires |a| == N
    ensures |r| == PackedBytes(f)
  {
    CodecOfValid(f);
    Pack(CodecOf(f), a, GroupCount(f))
  }

  function PolyUnpackAs(f: Format, b: seq<byte>): (a: seq<bv32>)
    requires |b| == PackedBytes(f)
    ensures |a| == N
  {
    CodecOfValid(f);
    Unpack(CodecOf(f), b, GroupCount(f))
  }

  /** What the codec carries, coefficient by coefficient, as a signed range. */
  lemma CarriedMeaning(f: Format, a: seq<bv32>)
    ensures AllCarried(CodecOf(f), a) <==>
              forall i :: 0 <= i < |a| ==> SignedWithin(a[i], MinMagnitude(f), Max(f))
  {
    forall i | 0 <= i < |a|
      ensures InRange(f, a[i]) <==> SignedWithin(a[i], MinMagnitude(f), Max(f))
    {
      InRangeMeaning(f, a[i]);
    }
  }

  /** Unpacked coefficients always lie in the range the format carries. */
  lemma PolyUnpackRange(f: Format, b: seq<byte>)
    requires |b| == PackedBytes(f)
    ensures forall i :: 0 <= i < N ==> SignedWithin(PolyUnpackAs(f, b)[i], MinMagnitude(f), Max(f))
  {
    CodecOfValid(f);
    UnpackCarried(CodecOf(f), b, GroupCount(f));
    CarriedMeaning(f, PolyUnpackAs(f, b));
  }

  /** A polynomial survives packing and unpacking exactly when all its
      coefficients lie in the range the format carries. */
  lemma PolyRoundTrip(f: Format, a: seq<bv32>)
    requires |a| == N
    ensures PolyUnpackAs(f, PolyPackAs(f, a)) == a <==>
              forall i :: 0 <= i < N ==> SignedWithin(a[i], MinMagnitude(f), Max(f))
  {
    CodecOfValid(f);
    UnpackOfPack(CodecOf(f), a, GroupCount(f));
    CarriedMeaning(f, a);
  }

  /** Any byte string of the packed size is the packing of its unpacking. */
  lemma PolyBytesRoundTrip(f: Format, b: seq<byte>)
    requires |b| == PackedBytes(f)
    ensures PolyPackAs(f, PolyUnpackAs(f, b)) == b
  {
    CodecOfValid(f);
    PackOfUnpack(CodecOf(f), b, GroupCount(f));
  }

  function EtaFormat(eta: nat): Format
    requires ValidEta(eta)
  {
    if eta == 2 then Eta2Format else Eta4Format
  }

  function ZFormat(gamma1: nat): Format
    requires ValidGamma1(gamma1)
  {
    if gamma1 == 0x2_0000 then Z17Format else Z19Format
  }

  /** `polyeta_pack`: 3 bits per coefficient for η = 2, 4 for η = 4. */
  function PolyEtaPack(eta: nat, a: seq<bv32>): (r: seq<byte>)
    requires ValidEta(eta) && |a| == N
    ensures |r| == if eta == 2 then 96 else 128
  {
    PolyPackAs(EtaFormat(eta), a)
  }

  /** `polyeta_unpack`: every coefficient it yields is at most η and at
      least η - 7 (η = 2) or η - 15 (η = 4). */
  function PolyEtaUnpack(eta: nat, b: seq<byte>): (a: seq<bv32>)
    requires ValidEta(eta) && |b| == PackedBytes(EtaFormat(eta))
    ensures |a| == N
    ensures eta == 2 ==> forall i :: 0 <= i < N ==> SignedWithin(a[i], 5, 2)
    ensures eta == 4 ==> forall i :: 0 <= i < N ==> SignedWithin(a[i], 11, 4)
  {
    PolyUnpackRange(EtaFormat(eta), b);
    PolyUnpackAs(EtaFormat(eta), b)
  }

  /** The η round trip on the documented range [-η, η]. */
  lemma PolyEtaRoundTrip(eta: nat, a: seq<bv32>)
    requires ValidEta(eta) && |a| == N
    requires eta == 2 ==> forall i :: 0 <= i < N ==> SignedWithin(a[i], 2, 2)
    requires eta == 4 ==> forall i :: 0 <= i < N ==> SignedWithin(a[i], 4, 4)
    ensures PolyEtaUnpack(eta, PolyEtaPack(eta, a)) == a
  {
    PolyRoundTrip(EtaFormat(eta), a);
  }

  lemma PolyEtaBytesRoundTrip(eta: nat, b: seq<byte>)
    requires ValidEta(eta) && |b| == PackedBytes(EtaFormat(eta))
    ensures PolyEtaPack(eta, PolyEtaUnpack(eta, b)) == b
  {
    PolyBytesRoundTrip(EtaFormat(eta), b);
  }

  /** `polyt1_pack`: 10 bits per coefficient. */
  function PolyT1Pack(a: seq<bv32>): (r: seq<byte>)
    requires |a| == N
    ensures |r| == 320
  {
    PolyPackAs(T1Format, a)
  }

  /** `polyt1_unpack`: every coefficient it yields is in [0, 1023]. */
  function PolyT1Unpack(b: seq<byte>): (a: seq<bv32>)
    requires |b| == 320
    ensures |a| == N && forall i :: 0 <= i < N ==> a[i] <= 1023
  {
    PolyUnpackRange(T1Format, b);
    PolyUnpackAs(T1Format, b)
  }

  /** The t1 round trip holds exactly on [0, 1023]. */
  lemma PolyT1RoundTrip(a: seq<bv32>)
    requires |a| == N
    ensures PolyT1Unpack(PolyT1Pack(a)) == a <==> forall i :: 0 <= i < N ==> a[i] <= 1023
  {
    PolyRoundTrip(T1Format, a);
  }

  lemma PolyT1BytesRoundTrip(b: seq<byte>)
    requires |b| == 320
    ensures PolyT1Pack(PolyT1Unpack(b)) == b
  {
    PolyBytesRoundTrip(T1Format, b);
  }

  /** `polyt0_pack`: 13 bits per coefficient, 2^(D-1) minus the value. */
  function PolyT0Pack(a: seq<bv32>): (r: seq<byte>)
    requires |a| == N
    ensures |r| == 416
  {
    PolyPackAs(T0Format, a)
  }

  /** `polyt0_unpack`: every coefficient it yields is in (-2^12, 2^12]. */
  function PolyT0Unpack(b: seq<byte>): (a: seq<bv32>)
    requires |b| == 416
    ensures |a| == N && forall i :: 0 <= i < N ==> SignedWithin(a[i], 0xFFF, 0x1000)
  {
    PolyUnpackRange(T0Format, b);
    PolyUnpackAs(T0Format, b)
  }

  /** The t0 round trip holds exactly on (-2^12, 2^12]. */
  lemma PolyT0RoundTrip(a: seq<bv32>)
    requires |a| == N
    ensures PolyT0Unpack(PolyT0Pack(a)) == a <==>
              forall i :: 0 <= i < N ==> SignedWithin(a[i], 0xFFF, 0x1000)
  {
    PolyRoundTrip(T0Format, a);
  }

  lemma PolyT0BytesRoundTrip(b: seq<byte>)
    requires |b| == 416
    ensures PolyT0Pack(PolyT0Unpack(b)) == b
  {
    PolyBytesRoundTrip(T0Format, b);
  }

  /** `polyz_pack`: 18 bits per coefficient for γ1 = 2^17, 20 for 2^19. */
  function PolyZPack(gamma1: nat, a: seq<bv32>): (r: seq<byte>)
    requires ValidGamma1(gamma1) && |a| == N
    ensures |r| == if gamma1 == 0x2_0000 then 576 else 640
  {
    PolyPackAs(ZFormat(gamma1), a)
  }

  /** `polyz_unpack`: every coefficient it yields is in [-(γ1 - 1), γ1]. */
  function PolyZUnpack(gamma1: nat, b: seq<byte>): (a: seq<bv32>)
    requires ValidGamma1(gamma1) && |b| == PackedBytes(ZFormat(gamma1))
    ensures |a| == N
    ensures gamma1 == 0x2_0000 ==> forall i :: 0 <= i < N ==> SignedWithin(a[i], 0x1_FFFF, 0x2_0000)
    ensures gamma1 == 0x8_0000 ==> forall i :: 0 <= i < N ==> SignedWithin(a[i], 0x7_FFFF, 0x8_0000)
  {
    PolyUnpackRange(ZFormat(gamma1), b);
    PolyUnpackAs(ZFormat(gamma1), b)
  }

  /** The z round trip holds exactly on [-(γ1 - 1), γ1]. */
  lemma PolyZRoundTrip(gamma1: nat, a: seq<bv32>)
    requires ValidGamma1(gamma1) && |a| == N
    ensures gamma1 == 0x2_0000 ==>
              (PolyZUnpack(gamma1, PolyZPack(gamma1, a)) == a <==>
               forall i :: 0 <= i < N ==> SignedWithin(a[i], 0x1_FFFF, 0x2_0000))
    ensures gamma1 == 0x8_0000 ==>
              (PolyZUnpack(gamma1, PolyZPack(gamma1, a)) == a <==>
               forall i :: 0 <= i < N ==> SignedWithin(a[i], 0x7_FFFF, 0x8_0000))
  {
    PolyRoundTrip(ZFormat(gamma1), a);
  }

  lemma PolyZBytesRoundTrip(gamma1: nat, b: seq<byte>)
    requires ValidGamma1(gamma1) && |b| == PackedBytes(ZFormat(gamma1))
    ensures PolyZPack(gamma1, PolyZUnpack(gamma1, b)) == b
  {
    PolyBytesRoundTrip(ZFormat(gamma1), b);
  }
}
