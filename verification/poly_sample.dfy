/** Rejection sampling over a stream of candidates: the values of the
    accepted candidates, in order, cut off after the first `n`. Both
    samplers of poly.c are an instance. */
module Sampling {
  import opened Wrappers

  /** The values a candidate stream yields, rejected candidates dropped. */
  function Accepted<T>(cs: seq<Option<T>>): (r: seq<T>)
    ensures |r| <= |cs|
  {
    if |cs| == 0 then []
    else (if cs[0].Some? then [cs[0].value] else []) + Accepted(cs[1..])
  }

  /** The first `n` elements, or all of them when there are fewer. */
  function Take<T>(s: seq<T>, n: nat): (r: seq<T>)
    ensures |r| == if |s| <= n then |s| else n
  {
    if |s| <= n then s else s[..n]
  }

  lemma {:induction false} AcceptedAppend<T>(xs: seq<Option<T>>, ys: seq<Option<T>>)
    ensures Accepted(xs + ys) == Accepted(xs) + Accepted(ys)
  {
    if |xs| == 0 {
      assert xs + ys == ys;
    } else {
      assert (xs + ys)[0] == xs[0];
      assert (xs + ys)[1..] == xs[1..] + ys;
      AcceptedAppend(xs[1..], ys);
    }
  }

  /** One step of a sampling loop: the values taken so far, followed by
      what is still to be taken from the remaining candidates. */
  lemma TakeStep<T>(a: seq<T>, cs: seq<Option<T>>, n: nat)
    requires |cs| > 0 && |a| < n
    ensures cs[0].Some? ==>
              a + Take(Accepted(cs), n - |a|) == (a + [cs[0].value]) + Take(Accepted(cs[1..]), n - |a| - 1)
    ensures cs[0].None? ==> a + Take(Accepted(cs), n - |a|) == a + Take(Accepted(cs[1..]), n - |a|)
  {
    if cs[0].Some? {
      var v := cs[0].value;
      AcceptedSome(cs);
      TakeHead(v, Accepted(cs[1..]), n - |a|);
      Assoc(a, [v], Take(Accepted(cs[1..]), n - |a| - 1));
    } else {
      AcceptedNone(cs);
    }
  }

  lemma AcceptedSome<T>(cs: seq<Option<T>>)
    requires |cs| > 0 && cs[0].Some?
    ensures Accepted(cs) == [cs[0].value] + Accepted(cs[1..])
  {
  }

  lemma AcceptedNone<T>(cs: seq<Option<T>>)
    requires |cs| > 0 && cs[0].None?
    ensures Accepted(cs) == Accepted(cs[1..])
  {
    assert [] + Accepted(cs[1..]) == Accepted(cs[1..]);
  }

  lemma TakeHead<T>(v: T, s: seq<T>, n: nat)
    requires n > 0
    ensures Take([v] + s, n) == [v] + Take(s, n - 1)
  {
    if |s| > n - 1 {
      assert ([v] + s)[..n] == [v] + s[..n - 1];
    }
  }

  lemma Assoc<T>(a: seq<T>, b: seq<T>, c: seq<T>)
    ensures a + (b + c) == (a + b) + c
  {
  }

  /** Every accepted candidate has property `p`. */
  ghost predicate AllKept<T>(cs: seq<Option<T>>, p: T -> bool)
  {
    forall k :: 0 <= k < |cs| && cs[k].Some? ==> p(cs[k].value)
  }

  lemma KeptAppend<T>(xs: seq<Option<T>>, ys: seq<Option<T>>, p: T -> bool)
    requires AllKept(xs, p) && AllKept(ys, p)
    ensures AllKept(xs + ys, p)
  {
    forall k | 0 <= k < |xs + ys| && (xs + ys)[k].Some?
      ensures p((xs + ys)[k].value)
    {
      if k >= |xs| {
        assert (xs + ys)[k] == ys[k - |xs|];
      }
    }
  }

  /** A property every kept candidate has, every value taken has. */
  lemma {:induction false} TakeKeeps<T>(cs: seq<Option<T>>, n: nat, p: T -> bool)
    requires AllKept(cs, p)
    ensures forall i :: 0 <= i < |Take(Accepted(cs), n)| ==> p(Take(Accepted(cs), n)[i])
  {
    AcceptedKeeps(cs, p);
  }

  lemma {:induction false} AcceptedKeeps<T>(cs: seq<Option<T>>, p: T -> bool)
    requires AllKept(cs, p)
    ensures forall i :: 0 <= i < |Accepted(cs)| ==> p(Accepted(cs)[i])
  {
    if |cs| > 0 {
      assert forall k :: 0 <= k < |cs[1..]| ==> cs[1..][k] == cs[k + 1];
      AcceptedKeeps(cs[1..], p);
    }
  }

  /** The values taken so far after one more candidate, kept when it is
      accepted and fewer than `n` values have been taken: the guarded
      `a[ctr++] = t` of the samplers. */
  function Push<T>(a: seq<T>, c: Option<T>, n: nat): (r: seq<T>)
    ensures |r| <= |a| + 1
  {
    if c.Some? && |a| < n then a + [c.value] else a
  }

  /** One step of a sampling loop, stated on the candidate in front. */
  lemma {:induction false} PushStep<T>(a: seq<T>, c: Option<T>, later: seq<Option<T>>, n: nat)
    requires |a| <= n
    ensures a + Take(Accepted([c] + later), n - |a|) == Push(a, c, n) + Take(Accepted(later), n - |Push(a, c, n)|)
  {
    assert ([c] + later)[1..] == later;
    if |a| < n {
      TakeStep(a, [c] + later, n);
    } else {
      TakeNothing(Accepted([c] + later));
      TakeNothing(Accepted(later));
    }
  }

  lemma TakeNothing<T>(s: seq<T>)
    ensures Take(s, 0) == []
  {
  }
}

/** The sampling and checking routines of poly.c in the ML-DSA reference
    code: the rejection samplers `rej_uniform` (CoeffFromThreeBytes, as used
    by Algorithm 30 RejNTTPoly of FIPS 204) and `rej_eta`
    (CoeffFromHalfByte, Algorithm 31 RejBoundedPoly), the infinity-norm
    check `poly_chknorm`, and the shuffle of `poly_challenge`
    (SampleInBall, Algorithm 29).

    The SHAKE streams these routines read are not modelled: the bytes they
    would squeeze are a parameter. Each sampler is a loop, as in the
    source, together with a reference definition that says which
    candidates it keeps; the two are proved equal. */
module PolySample {
  import opened Wrappers
  import opened MlDsaParams
  import opened Sampling

  // rej_uniform

  /** The 23-bit little-endian value of three bytes, the top bit of the
      last byte masked off. */
  function Triple(b0: byte, b1: byte, b2: byte): (t: bv32)
    ensures t < 0x80_0000
  {
    (W(b0) | (W(b1) << 8) | (W(b2) << 16)) & 0x7F_FFFF
  }

  /** The triple is the number b0 + 2^8 b1 + 2^16 b2, less the top bit of
      b2. */
  lemma TripleValue(b0: byte, b1: byte, b2: byte)
    ensures Triple(b0, b1, b2) == W(b0) + W(b1) * 0x100 + (W(b2) & 0x7F) * 0x1_0000
  {
  }

  /** CoeffFromThreeBytes: the triple, kept only when below Q. */
  function UniformCandidate(b0: byte, b1: byte, b2: byte): (c: Option<bv32>)
    ensures c.Some? <==> Triple(b0, b1, b2) < Q
    ensures c.Some? ==> c.value == Triple(b0, b1, b2) && c.value < Q
  {
    var t := Triple(b0, b1, b2);
    if t < Q then Some(t) else None
  }

  /** One candidate per whole three-byte group of the buffer; a trailing
      incomplete group yields none. */
  function UniformCandidates(buf: seq<byte>): (cs: seq<Option<bv32>>)
    ensures 3 * |cs| <= |buf| < 3 * |cs| + 3
    ensures forall k :: 0 <= k < |cs| ==> cs[k] == UniformCandidate(buf[3 * k], buf[3 * k + 1], buf[3 * k + 2])
  {
    if |buf| < 3 then []
    else [UniformCandidate(buf[0], buf[1], buf[2])] + UniformCandidates(buf[3..])
  }

  lemma UniformCandidatesAt(buf: seq<byte>, pos: nat)
    requires pos + 3 <= |buf|
    ensures UniformCandidates(buf[pos..])[0] == UniformCandidate(buf[pos], buf[pos + 1], buf[pos + 2])
    ensures UniformCandidates(buf[pos..])[1..] == UniformCandidates(buf[pos + 3..])
  {
    assert buf[pos..][3..] == buf[pos + 3..];
  }

  /** Every value the uniform sampler keeps is below Q. */
  lemma UniformBelowQ(buf: seq<byte>, len: nat)
    ensures forall i :: 0 <= i < |Take(Accepted(UniformCandidates(buf)), len)| ==>
              Take(Accepted(UniformCandidates(buf)), len)[i] < Q
  {
    TakeKeeps(UniformCandidates(buf), len, v => v < Q);
  }

  /** What the uniform sampler still takes from the bytes from `pos` on. */
  ghost function UniformRest(buf: seq<byte>, pos: nat, n: nat): seq<bv32>
    requires pos <= |buf|
  {
    Take(Accepted(UniformCandidates(buf[pos..])), n)
  }

  /** One three-byte group of `rej_uniform`. */
  lemma UniformRestStep(buf: seq<byte>, pos: nat, a: seq<bv32>, len: nat)
    requires pos + 3 <= |buf| && |a| <= len
    ensures var next := Push(a, UniformCandidate(buf[pos], buf[pos + 1], buf[pos + 2]), len);
            a + UniformRest(buf, pos, len - |a|) == next + UniformRest(buf, pos + 3, len - |next|)
  {
    var cs := UniformCandidates(buf[pos..]);
    UniformCandidatesAt(buf, pos);
    assert cs == [cs[0]] + cs[1..];
    PushStep(a, cs[0], cs[1..], len);
  }

  /** `rej_uniform`, loop for loop: returns the sampled coefficients and
      how many bytes it consumed. */
  method RejUniform(len: nat, buf: seq<byte>) returns (a: seq<bv32>, pos: nat)
    ensures a == Take(Accepted(UniformCandidates(buf)), len)
    ensures |a| <= len && forall i :: 0 <= i < |a| ==> a[i] < Q
    ensures pos <= |buf|
    ensures |a| < len ==> pos + 3 > |buf|
  {
    a := [];
    pos := 0;
    assert buf[0..] == buf;
    while |a| < len && pos + 3 <= |buf|
      invariant pos <= |buf| && |a| <= len
      invariant a + UniformRest(buf, pos, len - |a|) == UniformRest(buf, 0, len)
      decreases |buf| - pos
    {
      var c := UniformCandidate(buf[pos], buf[pos + 1], buf[pos + 2]);
      UniformRestStep(buf, pos, a, len);
      a := Push(a, c, len);
      pos := pos + 3;
    }
    assert UniformRest(buf, pos, len - |a|) == [] by {
      if |a| < len {
        assert UniformCandidates(buf[pos..]) == [];
      }
    }
    UniformBelowQ(buf, len);
  }

  // rej_eta

  /** A coefficient is in [-η, η]. */
  predicate WithinEta(eta: nat, c: bv32)
    requires ValidEta(eta)
  {
    if eta == 2 then SignedWithin(c, 2, 2) else SignedWithin(c, 4, 4)
  }

  /** The low and the high half of a byte. */
  function LowNibble(b: byte): (t: bv32)
    ensures t < 16
  {
    W(b) & 0x0F
  }

  function HighNibble(b: byte): (t: bv32)
    ensures t < 16
  {
    W(b) >> 4
  }

  /** The division-free reduction modulo 5 of `rej_eta`: for the nibbles it
      is applied to, (205 t) >> 10 is t / 5. */
  lemma Mod5(t: bv32)
    requires t < 15
    ensures t - ((205 * t) >> 10) * 5 == t % 5
  {
  }

  /** CoeffFromHalfByte: for η = 2 a nibble below 15 gives 2 - (t mod 5)
      by the division-free reduction; for η = 4 a nibble below 9 gives
      4 - t; other nibbles are rejected. */
  function HalfByteCandidate(eta: nat, t: bv32): (c: Option<bv32>)
    requires ValidEta(eta)
  {
    if eta == 2 then
      if t < 15 then Some(2 - (t - ((205 * t) >> 10) * 5)) else None
    else
      if t < 9 then Some(4 - t) else None
  }

  /** Which nibbles are accepted, and the value each one gives: the
      definition of CoeffFromHalfByte in FIPS 204, which lies in [-η, η]. */
  lemma HalfByteCandidateMeaning(eta: nat, t: bv32)
    requires ValidEta(eta) && t < 16
    ensures var c := HalfByteCandidate(eta, t);
            && (eta == 2 ==> (c.Some? <==> t < 15))
            && (eta == 4 ==> (c.Some? <==> t < 9))
            && (eta == 2 && c.Some? ==> c.value == 2 - t % 5)
            && (eta == 4 && c.Some? ==> c.value == 4 - t)
            && (c.Some? ==> WithinEta(eta, c.value))
  {
    if eta == 2 && t < 15 {
      Mod5(t);
    }
  }

  /** Two candidates per byte, the low nibble first. */
  function HalfByteCandidates(eta: nat, buf: seq<byte>): (cs: seq<Option<bv32>>)
    requires ValidEta(eta)
    ensures |cs| == 2 * |buf|
  {
    if |buf| == 0 then []
    else [HalfByteCandidate(eta, LowNibble(buf[0])), HalfByteCandidate(eta, HighNibble(buf[0]))] +
         HalfByteCandidates(eta, buf[1..])
  }

  lemma HalfByteCandidatesAt(eta: nat, buf: seq<byte>, pos: nat)
    requires ValidEta(eta) && pos < |buf|
    ensures HalfByteCandidates(eta, buf[pos..]) ==
              [HalfByteCandidate(eta, LowNibble(buf[pos]))] +
              ([HalfByteCandidate(eta, HighNibble(buf[pos]))] + HalfByteCandidates(eta, buf[pos + 1..]))
  {
    assert buf[pos..][1..] == buf[pos + 1..];
  }

  function InEtaRange(eta: nat): bv32 -> bool
    requires ValidEta(eta)
  {
    v => WithinEta(eta, v)
  }

  /** Every value the bounded sampler keeps is in [-η, η]. */
  lemma EtaWithin(eta: nat, buf: seq<byte>, len: nat)
    requires ValidEta(eta)
    ensures forall i :: 0 <= i < |Take(Accepted(HalfByteCandidates(eta, buf)), len)| ==>
              WithinEta(eta, Take(Accepted(HalfByteCandidates(eta, buf)), len)[i])
  {
    CandidatesWithinEta(eta, buf);
    TakeKeeps(HalfByteCandidates(eta, buf), len, InEtaRange(eta));
  }

  lemma {:induction false} CandidatesWithinEta(eta: nat, buf: seq<byte>)
    requires ValidEta(eta)
    ensures AllKept(HalfByteCandidates(eta, buf), InEtaRange(eta))
  {
    if |buf| > 0 {
      var c0 := HalfByteCandidate(eta, LowNibble(buf[0]));
      var c1 := HalfByteCandidate(eta, HighNibble(buf[0]));
      HalfByteCandidateMeaning(eta, LowNibble(buf[0]));
      HalfByteCandidateMeaning(eta, HighNibble(buf[0]));
      assert AllKept([c0, c1], InEtaRange(eta));
      CandidatesWithinEta(eta, buf[1..]);
      KeptAppend([c0, c1], HalfByteCandidates(eta, buf[1..]), InEtaRange(eta));
    }
  }

  /** What the bounded sampler still takes from the bytes from `pos` on. */
  ghost function EtaRest(eta: nat, buf: seq<byte>, pos: nat, n: nat): seq<bv32>
    requires ValidEta(eta) && pos <= |buf|
  {
    Take(Accepted(HalfByteCandidates(eta, buf[pos..])), n)
  }

  /** One byte of `rej_eta`: its low nibble, then its high nibble. */
  lemma EtaRestStep(eta: nat, buf: seq<byte>, pos: nat, a: seq<bv32>, len: nat)
    requires ValidEta(eta) && pos < |buf| && |a| <= len
    ensures var next := Push(Push(a, HalfByteCandidate(eta, LowNibble(buf[pos])), len),
                             HalfByteCandidate(eta, HighNibble(buf[pos])), len);
            a + EtaRest(eta, buf, pos, len - |a|) == next + EtaRest(eta, buf, pos + 1, len - |next|)
  {
    var c0 := HalfByteCandidate(eta, LowNibble(buf[pos]));
    var c1 := HalfByteCandidate(eta, HighNibble(buf[pos]));
    var later := HalfByteCandidates(eta, buf[pos + 1..]);
    HalfByteCandidatesAt(eta, buf, pos);
    PushStep(a, c0, [c1] + later, len);
    PushStep(Push(a, c0, len), c1, later, len);
  }

  /** `rej_eta`, loop for loop: the high nibble of a byte is kept only
      while fewer than `len` coefficients have been sampled. */
  method RejEta(eta: nat, len: nat, buf: seq<byte>) returns (a: seq<bv32>, pos: nat)
    requires ValidEta(eta)
    ensures a == Take(Accepted(HalfByteCandidates(eta, buf)), len)
    ensures |a| <= len && forall i :: 0 <= i < |a| ==> WithinEta(eta, a[i])
    ensures pos <= |buf|
    ensures |a| < len ==> pos == |buf|
  {
    a := [];
    pos := 0;
    assert buf[0..] == buf;
    while |a| < len && pos < |buf|
      invariant pos <= |buf| && |a| <= len
      invariant a + EtaRest(eta, buf, pos, len - |a|) == EtaRest(eta, buf, 0, len)
      decreases |buf| - pos
    {
      var c0 := HalfByteCandidate(eta, LowNibble(buf[pos]));
      var c1 := HalfByteCandidate(eta, HighNibble(buf[pos]));
      EtaRestStep(eta, buf, pos, a, len);
      // The loop condition makes the first store's `ctr < len` hold.
      a := Push(a, c0, len);
      a := Push(a, c1, len);
      pos := pos + 1;
    }
    assert EtaRest(eta, buf, pos, len - |a|) == [] by {
      if |a| < len {
        assert HalfByteCandidates(eta, buf[pos..]) == [];
      }
    }
    EtaWithin(eta, buf, len);
  }

  // poly_chknorm

  /** (Q - 1) / 8, the largest bound the check accepts. */
  const MAX_NORM_BOUND: bv32 := 0xF_FC00

  /** `x >> 31` on a signed word: the arithmetic shift copies the sign
      bit into every bit, which is 0 minus the logical shift's 0 or 1. */
  function SignMask(x: bv32): bv32
  {
    0 - (x >> 31)
  }

  /** The absolute value as `poly_chknorm` computes it without a branch:
      x - (mask & 2x) is x or -x. */
  function CtAbs(x: bv32): bv32
  {
    x - (SignMask(x) & (x << 1))
  }

  /** |x| < B for a signed x other than -2^31: -B < x < B. */
  predicate NormBelow(x: bv32, bound: bv32)
  {
    SignedLess(x, bound) && SignedLess(0 - x, bound)
  }

  lemma SignMaskValue(x: bv32)
    ensures SignMask(x) == if IsNegative(x) then 0xFFFF_FFFF else 0
  {
  }

  /** The branch-free absolute value is the absolute value. */
  lemma CtAbsValue(x: bv32)
    ensures CtAbs(x) == if IsNegative(x) then 0 - x else x
  {
    if IsNegative(x) {
      CtAbsNegative(x);
    } else {
      CtAbsNonNegative(x);
    }
  }

  lemma CtAbsNegative(x: bv32)
    requires IsNegative(x)
    ensures CtAbs(x) == 0 - x
  {
    SignMaskValue(x);
  }

  lemma CtAbsNonNegative(x: bv32)
    requires !IsNegative(x)
    ensures CtAbs(x) == x
  {
    SignMaskValue(x);
  }

  /** Comparing the absolute value with the bound is the norm test. */
  lemma CtAbsMeaning(x: bv32, bound: bv32)
    requires x != 0x8000_0000
    ensures SignedLess(CtAbs(x), bound) <==> NormBelow(x, bound)
  {
    CtAbsValue(x);
    if IsNegative(x) {
      NegativeNorm(x, bound);
    } else {
      NonNegativeNorm(x, bound);
    }
  }

  lemma NegativeNorm(x: bv32, bound: bv32)
    requires x != 0x8000_0000 && IsNegative(x)
    ensures SignedLess(0 - x, bound) <==> NormBelow(x, bound)
  {
  }

  lemma NonNegativeNorm(x: bv32, bound: bv32)
    requires !IsNegative(x)
    ensures SignedLess(x, bound) <==> NormBelow(x, bound)
  {
  }

  /** `poly_chknorm`: 1 when the bound exceeds (Q - 1) / 8, otherwise 0
      exactly when every coefficient is below the bound in absolute value.
      Coefficients are assumed reduced, as the source documents; -2^31 is
      not one. */
  method ChkNorm(a: seq<bv32>, bound: bv32) returns (r: nat)
    requires |a| == N
    requires forall i :: 0 <= i < |a| ==> a[i] != 0x8000_0000
    ensures r == 0 || r == 1
    ensures SignedLess(MAX_NORM_BOUND, bound) ==> r == 1
    ensures !SignedLess(MAX_NORM_BOUND, bound) ==> (r == 0 <==> forall i :: 0 <= i < N ==> NormBelow(a[i], bound))
  {
    if SignedLess(MAX_NORM_BOUND, bound) {
      return 1;
    }
    var i := 0;
    while i < N
      invariant i <= N
      invariant forall k :: 0 <= k < i ==> NormBelow(a[k], bound)
    {
      var t := CtAbs(a[i]);
      CtAbsMeaning(a[i], bound);
      if !SignedLess(t, bound) {
        return 1;
      }
      i := i + 1;
    }
    return 0;
  }

  // poly_challenge

  /** Two bytes read little-endian into the low 16 bits of a 64-bit word. */
  function PairWord(b0: byte, b1: byte): (w: bv64)
    ensures w >> 16 == 0
    ensures (w & 0xFF) as int == b0 as int && (w >> 8) as int == b1 as int
  {
    (b0 as bv64) | ((b1 as bv64) << 8)
  }

  /** Four bytes read little-endian into the low half of a 64-bit word. */
  function HalfWord(b: seq<byte>): (w: bv64)
    requires |b| == 4
    ensures w >> 32 == 0
    ensures (w & 0xFF) as int == b[0] as int && ((w >> 8) & 0xFF) as int == b[1] as int
    ensures ((w >> 16) & 0xFF) as int == b[2] as int && (w >> 24) as int == b[3] as int
  {
    var lo := PairWord(b[0], b[1]);
    var hi := PairWord(b[2], b[3]);
    assert (lo | (hi << 16)) & 0xFFFF == lo && (lo | (hi << 16)) >> 16 == hi;
    lo | (hi << 16)
  }

  /** The eight sign bytes, read little-endian into a 64-bit word: byte i
      lands in bits 8i to 8i + 7. */
  function SignWord(b: seq<byte>): (w: bv64)
    requires |b| == 8
    ensures (w & 0xFF) as int == b[0] as int && ((w >> 8) & 0xFF) as int == b[1] as int
    ensures ((w >> 16) & 0xFF) as int == b[2] as int && ((w >> 24) & 0xFF) as int == b[3] as int
    ensures ((w >> 32) & 0xFF) as int == b[4] as int && ((w >> 40) & 0xFF) as int == b[5] as int
    ensures ((w >> 48) & 0xFF) as int == b[6] as int && (w >> 56) as int == b[7] as int
  {
    var lo := HalfWord(b[..4]);
    var hi := HalfWord(b[4..]);
    assert (lo | (hi << 32)) & 0xFFFF_FFFF == lo && (lo | (hi << 32)) >> 32 == hi;
    lo | (hi << 32)
  }

  /** A challenge coefficient: 0, 1 or -1. */
  predicate IsTrit(x: bv32) { x == 0 || x == 1 || x == 0xFFFF_FFFF }

  /** The number of non-zero coefficients. */
  function Weight(c: seq<bv32>): (w: nat)
    ensures w <= |c|
  {
    if |c| == 0 then 0 else (if c[0] != 0 then 1 else 0) + Weight(c[1..])
  }

  lemma {:induction false} WeightUpdate(c: seq<bv32>, k: nat, v: bv32)
    requires k < |c|
    ensures Weight(c[k := v]) == Weight(c) - (if c[k] != 0 then 1 else 0) + (if v != 0 then 1 else 0)
  {
    if k > 0 {
      assert c[k := v][1..] == c[1..][k - 1 := v];
      WeightUpdate(c[1..], k - 1, v);
    } else {
      assert c[k := v][1..] == c[1..];
    }
  }

  lemma {:induction false} WeightOfZeros(n: nat)
    ensures Weight(seq(n, _ => 0 as bv32)) == 0
  {
    if n > 0 {
      assert seq(n, _ => 0 as bv32)[1..] == seq(n - 1, _ => 0 as bv32);
      WeightOfZeros(n - 1);
    }
  }

  /** The byte read as a position. */
  function Position(b: byte): (p: nat)
    ensures p < 256
  {
    b as nat
  }

  /** `poly_challenge` after the hashing: the first eight bytes of the
      stream give the signs, each later byte a candidate position, and
      positions above the current index are skipped. When the stream runs
      out before τ positions are found the result is `None`; the source
      squeezes more bytes from SHAKE256 there. */
  method Challenge(tau: nat, stream: seq<byte>) returns (r: Option<seq<bv32>>)
    requires tau <= N
    ensures r.Some? ==> |r.value| == N && Weight(r.value) == tau
    ensures r.Some? ==> forall i :: 0 <= i < N ==> IsTrit(r.value[i])
    ensures |stream| < 8 + tau ==> r.None?
    ensures (|stream| >= 8 + tau && forall k :: 8 <= k < 8 + tau ==> stream[k] as nat <= N - tau) ==> r.Some?
  {
    if |stream| < 8 {
      return None;
    }
    // Every position byte accepted at once: one byte per coefficient.
    ghost var easy := |stream| >= 8 + tau && forall k :: 8 <= k < 8 + tau ==> stream[k] as nat <= N - tau;
    var signs := SignWord(stream[..8]);
    var pos := 8;
    var c: seq<bv32> := seq(N, _ => 0);
    WeightOfZeros(N);
    var i := N - tau;
    while i < N
      invariant N - tau <= i <= N && |c| == N
      invariant 8 + (i - (N - tau)) <= pos <= |stream|
      invariant forall k :: 0 <= k < N ==> IsTrit(c[k])
      invariant forall k :: i <= k < N ==> c[k] == 0
      invariant Weight(c) == i - (N - tau)
      invariant easy ==> pos == 8 + (i - (N - tau))
    {
      ghost var start := pos;
      var b: nat := 0;
      var found := false;
      while !found
        invariant start <= pos <= |stream|
        invariant found ==> b <= i && pos > start
        invariant easy ==> pos == start + (if found then 1 else 0)
        decreases |stream| - pos, !found
      {
        if pos >= |stream| {
          return None;
        }
        b := Position(stream[pos]);
        pos := pos + 1;
        found := b <= i;
      }
      var sign: bv32 := if signs & 1 == 0 then 1 else 0xFFFF_FFFF;
      WeightUpdate(c, i, c[b]);
      var moved := c[i := c[b]];
      WeightUpdate(moved, b, sign);
      c := moved[b := sign];
      signs := signs >> 1;
      i := i + 1;
    }
    return Some(c);
  }
}
