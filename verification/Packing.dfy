/** Little-endian digit strings in power-of-two bases, and the shifts and ORs that move digits
    between base 128 (septets) and base 256 (octets). */
module Packing {
  import opened Arithmetic

  type byte = x: nat | x < 256
  type septet = x: nat | x < 128

  function Pow2(k: nat): (r: nat)
    ensures r >= 1
  {
    if k == 0 then 1 else 2 * Pow2(k - 1)
  }

  lemma {:induction false} Pow2Add(a: nat, b: nat)
    ensures Pow2(a + b) == Pow2(a) * Pow2(b)
  {
    if a > 0 {
      Pow2Add(a - 1, b);
      assert Pow2(a + b) == 2 * Pow2(a - 1 + b);
    }
  }

  lemma SmallPowers()
    ensures Pow2(0) == 1 && Pow2(1) == 2 && Pow2(2) == 4 && Pow2(3) == 8 && Pow2(4) == 16
    ensures Pow2(5) == 32 && Pow2(6) == 64 && Pow2(7) == 128 && Pow2(8) == 256
  {
    assert Pow2(4) == 16;
  }

  /** Bitwise OR of naturals. */
  function BitOr(x: nat, y: nat): nat {
    if x == 0 then y
    else if y == 0 then x
    else (if x % 2 == 1 || y % 2 == 1 then 1 else 0) + 2 * BitOr(x / 2, y / 2)
  }

  /** OR-ing a multiple of 2^k onto a number below 2^k is addition. */
  lemma {:induction false} OrDisjoint(x: nat, q: nat, k: nat)
    requires x < Pow2(k)
    ensures BitOr(x, q * Pow2(k)) == x + q * Pow2(k)
  {
    if k > 0 && x > 0 {
      var y := q * Pow2(k - 1);
      assert q * Pow2(k) == 2 * y;
      OrDisjoint(x / 2, q, k - 1);
    }
  }

  /** (uint8_t)(x << n) */
  function Shl(x: byte, n: nat): byte
    decreases n
  {
    if n == 0 then x else Shl(2 * x % 256, n - 1)
  }

  /** x >> n */
  function Shr(x: nat, n: nat): (r: nat)
    ensures r <= x
  {
    if n == 0 then x else Shr(x / 2, n - 1)
  }

  lemma {:induction false} ShlIsProduct(x: byte, n: nat)
    ensures Shl(x, n) == Rem(x * Pow2(n), 256)
    decreases n
  {
    if n > 0 {
      ShlIsProduct(2 * x % 256, n - 1);
      DoubleMod(x, Pow2(n - 1), Pow2(n));
    }
  }

  lemma DoubleMod(x: nat, p: nat, q: nat)
    requires q == 2 * p
    ensures Rem(x * q, 256) == Rem((2 * x % 256) * p, 256)
  {
    ScaleMod(2 * x, p, 256);
    assert x * q == (2 * x) * p;
  }

  lemma {:induction false} ShrIsQuotient(x: nat, n: nat)
    ensures Shr(x, n) == Quot(x, Pow2(n))
  {
    if n > 0 {
      ShrIsQuotient(x / 2, n - 1);
      DivDiv(x, 2, Pow2(n - 1));
    }
  }

  /** The number with little-endian digits s in base 2^w. */
  function Val(s: seq<nat>, w: nat): nat {
    if s == [] then 0 else s[0] + Pow2(w) * Val(s[1..], w)
  }

  /** The n lowest digits of v in base 2^w. */
  function Digits(v: nat, w: nat, n: nat): (s: seq<nat>)
    ensures |s| == n && AreDigits(s, w)
  {
    if n == 0 then [] else [Rem(v, Pow2(w))] + Digits(Quot(v, Pow2(w)), w, n - 1)
  }

  ghost predicate AreDigits(s: seq<nat>, w: nat) {
    forall i :: 0 <= i < |s| ==> s[i] < Pow2(w)
  }

  lemma {:induction false} ValBound(s: seq<nat>, w: nat)
    requires AreDigits(s, w)
    ensures Val(s, w) < Pow2(w * |s|)
  {
    if s == [] {
      assert w * |s| == 0;
    } else {
      ValBound(s[1..], w);
      assert w * |s| == w + w * |s[1..]|;
      Pow2Add(w, w * |s[1..]|);
      MulStep(Pow2(w), s[0], Val(s[1..], w), Pow2(w * |s[1..]|));
    }
  }

  lemma {:induction false} ValSnoc(s: seq<nat>, d: nat, w: nat)
    ensures Val(s + [d], w) == Val(s, w) + d * Pow2(w * |s|)
  {
    if s == [] {
      assert w * |s| == 0;
      assert (s + [d])[1..] == [];
    } else {
      ValSnoc(s[1..], d, w);
      assert (s + [d])[1..] == s[1..] + [d];
      assert w * |s| == w + w * |s[1..]|;
      Pow2Add(w, w * |s[1..]|);
      Distribute(Pow2(w), Val(s[1..], w), d, Pow2(w * |s[1..]|));
    }
  }

  /** Changing one digit changes the value by the difference at that digit's weight. */
  lemma {:induction false} ValUpdate(s: seq<nat>, k: nat, d: nat, w: nat)
    requires k < |s|
    ensures Val(s[k := d], w) == Val(s, w) + (d - s[k]) * Pow2(w * k)
  {
    if k == 0 {
      assert w * k == 0;
      assert s[k := d][1..] == s[1..];
    } else {
      ValUpdate(s[1..], k - 1, d, w);
      assert s[k := d][1..] == s[1..][k - 1 := d];
      assert w * k == w + w * (k - 1);
      Pow2Add(w, w * (k - 1));
      Distribute(Pow2(w), Val(s[1..], w), d - s[k], Pow2(w * (k - 1)));
    }
  }

  /** A small value leaves the high digits empty. */
  lemma {:induction false} ValSmall(s: seq<nat>, k: nat, r: nat)
    requires r <= 8 && Val(s, 8) < Pow2(8 * k + r)
    ensures k < |s| ==> s[k] < Pow2(r)
    ensures forall j :: k < j < |s| ==> s[j] == 0
  {
    SmallPowers();
    if s != [] {
      if k == 0 {
        Pow2Add(r, 8 - r);
        assert Pow2(r) <= 256 by { assert Pow2(r) * 1 <= Pow2(r) * Pow2(8 - r); }
        assert Val(s[1..], 8) == 0;
        ValZero(s[1..]);
        assert forall j :: 0 < j < |s| ==> s[j] == s[1..][j - 1];
      } else {
        Pow2Add(8, 8 * (k - 1) + r);
        ValSmall(s[1..], k - 1, r);
        assert forall j :: 0 < j < |s| ==> s[j] == s[1..][j - 1];
      }
    }
  }

  lemma {:induction false} ValZero(s: seq<nat>)
    requires Val(s, 8) == 0
    ensures forall j :: 0 <= j < |s| ==> s[j] == 0
  {
    SmallPowers();
    if s != [] {
      ValZero(s[1..]);
      assert forall j :: 0 < j < |s| ==> s[j] == s[1..][j - 1];
    }
  }

  /** Reading back the digits of a value. */
  lemma {:induction false} DigitsOfVal(s: seq<nat>, w: nat)
    requires AreDigits(s, w)
    ensures Digits(Val(s, w), w, |s|) == s
  {
    if s != [] {
      DivModStep(Val(s[1..], w), Pow2(w), s[0]);
      DigitsOfVal(s[1..], w);
    }
  }

  /** Enough digits determine the value. */
  lemma ValOfDigits(v: nat, w: nat, n: nat)
    requires v < Pow2(w * n)
    ensures Val(Digits(v, w, n), w) == v
  {
    ValOfDigitsIn(v, w, n, w * n);
  }

  lemma {:induction false} ValOfDigitsIn(v: nat, w: nat, n: nat, bits: nat)
    requires bits == w * n && v < Pow2(bits)
    ensures Val(Digits(v, w, n), w) == v
    decreases n
  {
    if n > 0 {
      var q, rest := Quot(v, Pow2(w)), w * (n - 1);
      TimesStep(w, n);
      QuotOfSum(v, w, rest, bits);
      ValOfDigitsIn(q, w, n - 1, rest);
      ValOfFirst(v, w, n, q);
    }
  }

  lemma QuotOfSum(v: nat, a: nat, b: nat, sum: nat)
    requires sum == a + b && v < Pow2(sum)
    ensures Quot(v, Pow2(a)) < Pow2(b)
  {
    Pow2Add(a, b);
    QuotBelow(v, Pow2(a), Pow2(b), Pow2(sum));
  }

  lemma TimesStep(w: nat, n: nat)
    ensures w * n == w + w * (n - 1)
  {
  }

  lemma ValOfFirst(v: nat, w: nat, n: nat, q: nat)
    requires n > 0 && q == Quot(v, Pow2(w)) && Val(Digits(q, w, n - 1), w) == q
    ensures Val(Digits(v, w, n), w) == v
  {
    DivMod(v, Pow2(w));
    assert Digits(v, w, n)[1..] == Digits(q, w, n - 1);
  }

  lemma QuotBelow(v: nat, b: nat, p: nat, bp: nat)
    requires b > 0 && bp == b * p && v < bp
    ensures Quot(v, b) < p
  {
    DivSmaller(v, b, p);
  }

  /** Digit i in base 128, read through a window of two octets. */
  function Window(b0: byte, b1: byte, off: nat): septet {
    Shr(b0 + 256 * b1, off) % 128
  }

  function OctetAt(s: seq<byte>, k: nat): byte {
    if k < |s| then s[k] else 0
  }

  /** Dropping i septets from a value drops 7i bits, wherever that falls in the octets. */
  lemma SeptetAt(s: seq<byte>, n: nat, i: nat, k: nat, off: nat)
    requires i < n && 7 * i == 8 * k + off && off < 8
    ensures Digits(Val(s, 8), 7, n)[i] == Window(OctetAt(s, k), OctetAt(s, k + 1), off)
  {
    var v := Val(s, 8);
    DigitShifted(v, n, i);
    Pow2Add(8 * k, off);
    DivDiv(v, Pow2(8 * k), Pow2(off));
    DropOctets(s, k);
    LowWindow(if k <= |s| then s[k..] else [], off);
  }

  lemma LowWindow(rest: seq<byte>, off: nat)
    requires off < 8
    ensures Quot(Val(rest, 8), Pow2(off)) % 128 == Window(OctetAt(rest, 0), OctetAt(rest, 1), off)
  {
    SmallPowers();
    var high := if |rest| >= 2 then Val(rest[1..][1..], 8) else 0;
    assert |rest| >= 1 ==> Val(rest, 8) == rest[0] + 256 * Val(rest[1..], 8);
    assert |rest| >= 2 ==> Val(rest[1..], 8) == rest[1] + 256 * high;
    WindowIgnoresHigh(OctetAt(rest, 0), OctetAt(rest, 1), high, off);
  }

  lemma WindowIgnoresHigh(b0: byte, b1: byte, high: nat, off: nat)
    requires off < 8
    ensures Quot(b0 + 256 * (b1 + 256 * high), Pow2(off)) % 128 == Window(b0, b1, off)
  {
    assert Pow2(off) * Pow2(9 - off) == 512 by {
      Pow2Add(off, 9 - off);
      assert Pow2(9) == 2 * Pow2(8);
      SmallPowers();
    }
    HighBitsDrop(b0 + 256 * b1, high, Pow2(off), Pow2(9 - off));
    assert b0 + 256 * (b1 + 256 * high) == b0 + 256 * b1 + 65536 * high;
    ShrIsQuotient(b0 + 256 * b1, off);
  }

  lemma HighBitsDrop(x: nat, high: nat, c: nat, d: nat)
    requires c > 0 && c * d == 512
    ensures ((x + 65536 * high) / c) % 128 == (x / c) % 128
  {
    assert c * (128 * (d * high)) == 65536 * high by {
      assert c * (d * high) == (c * d) * high;
      assert c * (128 * (d * high)) == 128 * (c * (d * high));
    }
    AddMultiple(x, c, 128 * (d * high));
    AddMultiple(x / c, 128, d * high);
  }

  lemma {:induction false} DropOctets(s: seq<byte>, k: nat)
    ensures Quot(Val(s, 8), Pow2(8 * k)) == if k <= |s| then Val(s[k..], 8) else 0
  {
    SmallPowers();
    if k == 0 {
      assert s[0..] == s;
    } else if s == [] {
    } else {
      DropOctets(s[1..], k - 1);
      Pow2Add(8, 8 * (k - 1));
      DivDiv(Val(s, 8), 256, Pow2(8 * (k - 1)));
      DivModStep(Val(s[1..], 8), 256, s[0]);
      if k <= |s| {
        assert s[1..][k - 1..] == s[k..];
      }
    }
  }

  lemma {:induction false} DigitShifted(v: nat, n: nat, i: nat)
    requires i < n
    ensures Digits(v, 7, n)[i] == Quot(v, Pow2(7 * i)) % 128
  {
    SmallPowers();
    if i > 0 {
      DigitShifted(v / 128, n - 1, i - 1);
      Pow2Add(7, 7 * (i - 1));
      DivDiv(v, 128, Pow2(7 * (i - 1)));
    }
  }

  // ---------------------------------------------------------------- repacking

  /** As many octets as the bits need. */
  function PackedLength(n: nat): (k: nat)
    ensures 7 * n <= 8 * k < 7 * n + 8
  {
    (7 * n + 7) / 8
  }

  /** Septets packed into octets: the same number in base 256, as 3GPP TS 23.038
      section 6.1.2.1 lays it out. */
  function Pack(s: seq<septet>): (r: seq<byte>)
    ensures |r| == PackedLength(|s|)
  {
    SmallPowers();
    var digits := Digits(Val(s, 7), 8, PackedLength(|s|));
    digits
  }

  function Unpack(s: seq<byte>, n: nat): (r: seq<septet>)
    ensures |r| == n
  {
    SmallPowers();
    var digits := Digits(Val(s, 8), 7, n);
    digits
  }

  lemma Pow2Monotone(a: nat, b: nat)
    requires a <= b
    ensures Pow2(a) <= Pow2(b)
  {
    Pow2Add(a, b - a);
    assert Pow2(a) * 1 <= Pow2(a) * Pow2(b - a);
  }

  /** Packing is base conversion. */
  lemma PackPreservesValue(s: seq<septet>)
    ensures Val(Pack(s), 8) == Val(s, 7) < Pow2(7 * |s|)
  {
    SmallPowers();
    ValBound(s, 7);
    Pow2Monotone(7 * |s|, 8 * PackedLength(|s|));
    ValOfDigits(Val(s, 7), 8, PackedLength(|s|));
  }

  lemma UnpackPack(s: seq<septet>)
    ensures Unpack(Pack(s), |s|) == s
  {
    SmallPowers();
    PackPreservesValue(s);
    DigitsOfVal(s, 7);
  }

  /** Repacking restores the octets exactly when the unused bits above the septets are zero. */
  lemma PackUnpack(b: seq<byte>, n: nat)
    requires |b| == PackedLength(n)
    ensures Pack(Unpack(b, n)) == b <==> Val(b, 8) < Pow2(7 * n)
  {
    SmallPowers();
    PackPreservesValue(Unpack(b, n));
    if Val(b, 8) < Pow2(7 * n) {
      ValOfDigits(Val(b, 8), 7, n);
      DigitsOfVal(b, 8);
    }
  }
}
