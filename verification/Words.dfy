/** Machine words as bits, lowest first, and the numbers they stand for. */
module Words {
  import opened Prelude

  type Bits = seq<bool>

  type u32 = s: seq<bool> | |s| == 32 witness seq(32, i => false)

  lemma Pow2Values()
    ensures Pow2(4) == 0x10 && Pow2(5) == 0x20 && Pow2(6) == 0x40 && Pow2(7) == 0x80 && Pow2(8) == 0x100
    ensures Pow2(32) == WRAP
  {
    assert Pow2(16) == 0x1_0000;
    assert Pow2(24) == 0x100_0000;
  }

  // ----- bits and numbers -----

  function Num(s: Bits): (n: nat)
    ensures n < Pow2(|s|)
  {
    if |s| == 0 then 0 else (if s[0] then 1 else 0) + 2 * Num(s[1..])
  }

  function BitsOf(n: nat, size: nat): (s: Bits)
    ensures |s| == size
  {
    if size == 0 then [] else [n % 2 == 1] + BitsOf(n / 2, size - 1)
  }

  lemma {:induction false} BitsOfIsExact(n: nat, size: nat)
    requires n < Pow2(size)
    ensures Num(BitsOf(n, size)) == n
  {
    if size == 0 {
    } else {
      BitsOfIsExact(n / 2, size - 1);
    }
  }

  lemma {:induction false} NumConcat(s: Bits, t: Bits)
    ensures Num(s + t) == Num(s) + Pow2(|s|) * Num(t)
  {
    if |s| == 0 {
      assert s + t == t;
    } else {
      NumConcat(s[1..], t);
      assert (s + t)[1..] == s[1..] + t;
      Doubled(Pow2(|s| - 1), Num(t));
    }
  }

  lemma Doubled(p: nat, n: nat)
    ensures (2 * p) * n == 2 * (p * n)
  {
  }

  lemma {:induction false} NumZeros(s: Bits)
    requires forall i :: 0 <= i < |s| ==> !s[i]
    ensures Num(s) == 0
  {
    if |s| == 0 {
    } else {
      NumZeros(s[1..]);
    }
  }

  lemma {:induction false} NumOnes(s: Bits)
    requires forall i :: 0 <= i < |s| ==> s[i]
    ensures Num(s) == Pow2(|s|) - 1
  {
    if |s| == 0 {
    } else {
      NumOnes(s[1..]);
    }
  }

  function Zeros(k: nat): (s: Bits)
    ensures |s| == k && forall i :: 0 <= i < k ==> !s[i]
  {
    seq(k, i => false)
  }

  function Ones(k: nat): (s: Bits)
    ensures |s| == k && forall i :: 0 <= i < k ==> s[i]
  {
    seq(k, i => true)
  }

  lemma ZerosBelow(k: nat, hi: Bits)
    ensures Num(Zeros(k) + hi) == Pow2(k) * Num(hi)
  {
    NumConcat(Zeros(k), hi);
    NumZeros(Zeros(k));
  }

  lemma ZerosAbove(lo: Bits, k: nat)
    ensures Num(lo + Zeros(k)) == Num(lo)
  {
    NumConcat(lo, Zeros(k));
    NumZeros(Zeros(k));
  }

  lemma OnesBelow(k: nat, hi: Bits)
    ensures Num(Ones(k) + hi) == Pow2(k) - 1 + Pow2(k) * Num(hi)
  {
    NumConcat(Ones(k), hi);
    NumOnes(Ones(k));
  }

  // ----- operators -----

  function And(a: Bits, b: Bits): (c: Bits)
    requires |a| == |b|
    ensures |c| == |a|
  {
    seq(|a|, i requires 0 <= i < |a| => a[i] && b[i])
  }

  function Or(a: Bits, b: Bits): (c: Bits)
    requires |a| == |b|
    ensures |c| == |a|
  {
    seq(|a|, i requires 0 <= i < |a| => a[i] || b[i])
  }

  function Not(a: Bits): (c: Bits)
    ensures |c| == |a|
  {
    seq(|a|, i requires 0 <= i < |a| => !a[i])
  }

  function Shl(a: u32, k: nat): u32 {
    seq(32, i requires 0 <= i < 32 => i >= k && a[i - k])
  }

  function Shr(a: u32, k: nat): u32 {
    seq(32, i requires 0 <= i < 32 => i + k < 32 && a[i + k])
  }

  // Eight ones at bits k to k+7.
  function OctetMask(k: nat): u32 {
    seq(32, i requires 0 <= i < 32 => k <= i < k + 8)
  }

  // The word of a number, modulo 2^32.
  function Wrap(n: int): (w: u32)
    ensures Num(w) == n % WRAP
  {
    Pow2Values();
    BitsOfIsExact(n % WRAP, 32);
    BitsOf(n % WRAP, 32)
  }

  // ----- division -----

  lemma UniqueRemainder(a: nat, d: nat, q: nat, r: nat)
    requires d > 0 && a == q * d + r && r < d
    ensures a / d == q && a % d == r
  {
    var t := q - a / d;
    assert t * d == a % d - r;
    ProductBound(t, d);
  }

  lemma RemainderOf(a: nat, d: nat, q: nat, r: nat)
    requires r < d && a == r + d * q
    ensures a % d == r
  {
    UniqueRemainder(a, d, q, r);
  }

  lemma ProductBound(t: int, d: nat)
    ensures (t >= 1 ==> t * d >= d) && (t <= -1 ==> t * d <= 0 - d)
  {
  }

  // ----- masks -----

  lemma {:induction false} LowOnes(k: nat, size: nat)
    requires k <= size
    ensures BitsOf(Pow2(k) - 1, size) == Ones(k) + Zeros(size - k)
  {
    if size == 0 {
    } else if k == 0 {
      LowOnes(0, size - 1);
      assert Ones(0) + Zeros(size) == [false] + (Ones(0) + Zeros(size - 1));
    } else {
      LowOnes(k - 1, size - 1);
      assert Ones(k) + Zeros(size - k) == [true] + (Ones(k - 1) + Zeros(size - k));
    }
  }

  // The low k bits are the remainder by 2^k.
  lemma LowPart(a: Bits, k: nat)
    requires k <= |a|
    ensures Num(a[..k]) == Num(a) % Pow2(k)
  {
    var lo, hi := Num(a[..k]), Num(a[k..]);
    assert a == a[..k] + a[k..];
    NumConcat(a[..k], a[k..]);
    RemainderOf(Num(a), Pow2(k), hi, lo);
  }

  // The low k bits above which all is masked.
  lemma MaskedLow(a: Bits, k: nat)
    requires k <= |a|
    ensures And(a, Ones(k) + Zeros(|a| - k)) == a[..k] + Zeros(|a| - k)
  {
  }

  /** Masking a word with 2^k - 1 takes its remainder by 2^k. */
  lemma MaskIsRemainder(a: Bits, k: nat)
    requires k <= |a|
    ensures Num(And(a, BitsOf(Pow2(k) - 1, |a|))) == Num(a) % Pow2(k)
  {
    LowOnes(k, |a|);
    MaskedLow(a, k);
    ZerosAbove(a[..k], |a| - k);
    LowPart(a, k);
  }
}
