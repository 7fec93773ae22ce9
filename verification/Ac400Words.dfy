/** Fields and bits of the 16-bit AC400 registers. Machine words are bit sequences, least
    significant bit first, so that C's shifts and masks are what they are at every width. */
module Words {

  type Bits = seq<bool>
  type Word = w: Bits | |w| == 16 witness seq(16, i => false)

  // ---- C operators --------------------------------------------------------------------

  function Ones(n: nat): Bits {
    seq(n, i => true)
  }

  function Not(a: Bits): Bits {
    seq(|a|, i requires 0 <= i < |a| => !a[i])
  }

  function And(a: Bits, b: Bits): Bits
    requires |a| == |b|
  {
    seq(|a|, i requires 0 <= i < |a| => a[i] && b[i])
  }

  function Or(a: Bits, b: Bits): Bits
    requires |a| == |b|
  {
    seq(|a|, i requires 0 <= i < |a| => a[i] || b[i])
  }

  function Shl(a: Bits, n: nat): Bits {
    seq(|a|, i requires 0 <= i < |a| => i >= n && a[i - n])
  }

  function Shr(a: Bits, n: nat): Bits {
    seq(|a|, i requires 0 <= i < |a| => i + n < |a| && a[i + n])
  }

  /** A 16-bit value in an unsigned long, and its truncation back. */
  function Widen(w: Word): Bits {
    w + seq(48, i => false)
  }

  function Low16(a: Bits): Word
    requires |a| >= 16
  {
    a[..16]
  }

  // ---- the header's macros --------------------------------------------------------------

  /** GENMASK. */
  function GenMask(h: nat, l: nat): (m: Bits)
    requires h < 64
    ensures |m| == 64
  {
    And(Shl(Ones(64), l), Shr(Ones(64), 63 - h))
  }

  /** AC400_GET_FIELD. */
  function GetField(w: Word, h: nat, l: nat): Word
    requires h < 16
  {
    Low16(Shr(And(Widen(w), GenMask(h, l)), l))
  }

  /** AC400_PUT_FIELD stored in a 16-bit variable. The value is not masked. */
  function PutField(w: Word, h: nat, l: nat, v: Word): Word
    requires h < 16
  {
    Low16(Or(And(Widen(w), Not(GenMask(h, l))), Shl(Widen(v), l)))
  }

  /** The constant 1 or 0. */
  function Bit(on: bool): Word {
    [on] + seq(15, i => false)
  }

  /** AC400_GET_BIT. */
  function GetBit(w: Word, b: nat): Word {
    And(Shr(w, b), Bit(true))
  }

  /** A word masked with one bit, as a truth value. */
  predicate TestBit(w: Word, b: nat) {
    And(w, Shl(Bit(true), b)) != Bit(false)
  }

  /** AC400_PUT_BIT: any value but zero is one. */
  function PutBit(w: Word, b: nat, on: bool): Word {
    Or(And(w, Not(Shl(Bit(true), b))), Shl(Bit(on), b))
  }

  /** GENMASK(h, l) is the bits l to h. */
  lemma MaskBits(h: nat, l: nat)
    requires h < 16
    ensures forall k :: 0 <= k < 64 ==> (GenMask(h, l)[k] <==> l <= k <= h)
  {
  }

  lemma GetBits(w: Word, h: nat, l: nat)
    requires h < 16
    ensures forall k :: 0 <= k < 16 ==> (GetField(w, h, l)[k] <==> k + l <= h && w[k + l])
  {
    MaskBits(h, l);
  }

  /** The bits above the field that a value too wide for it reaches are set, never cleared. */
  lemma PutBits(w: Word, h: nat, l: nat, v: Word)
    requires h < 16
    ensures forall k :: 0 <= k < 16 ==>
              (PutField(w, h, l, v)[k] <==> (w[k] && !(l <= k <= h)) || (k >= l && v[k - l]))
  {
    MaskBits(h, l);
  }

  // ---- numbers ---------------------------------------------------------------------------

  function Num(a: Bits): nat {
    if a == [] then 0 else (if a[0] then 1 else 0) + 2 * Num(a[1..])
  }

  function Digits(n: nat, len: nat): (a: Bits)
    ensures |a| == len
  {
    if len == 0 then [] else [n % 2 == 1] + Digits(n / 2, len - 1)
  }

  /** A number stored in a uint16_t. */
  function Code(n: nat): Word {
    Digits(n, 16)
  }

  function Pow2(n: nat): (p: nat)
    ensures p > 0
  {
    if n == 0 then 1 else 2 * Pow2(n - 1)
  }

  /** Storing truncates: the stored number is the original modulo the width. */
  lemma {:induction false} NumDigits(n: nat, len: nat)
    ensures Num(Digits(n, len)) == n % Pow2(len)
  {
    if len > 0 {
      NumDigits(n / 2, len - 1);
      assert Digits(n, len)[1..] == Digits(n / 2, len - 1);
      ModTwice(n, Pow2(len - 1));
    }
  }

  lemma ModTwice(n: nat, p: nat)
    requires p > 0
    ensures n % (2 * p) == n % 2 + 2 * ((n / 2) % p)
  {
    var (m, r) := (n / 2, (n / 2) % p);
    var q := m / p;
    assert m == q * p + r;
    assert n == 2 * m + n % 2;
    assert n == (2 * p) * q + (n % 2 + 2 * r);
    ModUnique(n, 2 * p, q, n % 2 + 2 * r);
  }

  lemma ModUnique(n: nat, d: nat, q: nat, r: nat)
    requires r < d && n == d * q + r
    ensures n % d == r
  {
    var k := q - n / d;
    assert n == d * (n / d) + n % d;
    assert d * k == d * q - d * (n / d);
    SmallMultiple(d, k);
  }

  lemma SmallMultiple(d: int, k: int)
    requires 0 < d && -d < d * k < d
    ensures k == 0
  {
  }

  lemma {:induction false} DigitsNum(a: Bits)
    ensures Digits(Num(a), |a|) == a
  {
    if a != [] {
      DigitsNum(a[1..]);
      assert Num(a) / 2 == Num(a[1..]);
      assert a == [a[0]] + a[1..];
    }
  }

  lemma CodeOfNum(w: Word)
    ensures Code(Num(w)) == w
  {
    DigitsNum(w);
  }

  lemma NumOfCode(n: nat)
    ensures Num(Code(n)) == n % 65536
  {
    NumDigits(n, 16);
    assert Pow2(4) == 16;
    assert Pow2(8) == 256;
    assert Pow2(12) == 4096;
    assert Pow2(16) == 65536;
  }

  /** A number below a power of two has no bit from there on. */
  lemma {:induction false} SmallBits(a: Bits, n: nat)
    ensures Num(a) < Pow2(n) <==> forall k :: n <= k < |a| ==> !a[k]
  {
    if a == [] {
    } else if n == 0 {
      SmallBits(a[1..], 0);
      assert forall k :: 1 <= k < |a| ==> a[k] == a[1..][k - 1];
      assert (forall k :: 0 <= k < |a[1..]| ==> !a[1..][k]) <==> (forall k :: 1 <= k < |a| ==> !a[k]);
    } else {
      SmallBits(a[1..], n - 1);
      assert forall k :: 1 <= k < |a| ==> a[k] == a[1..][k - 1];
      assert forall k :: 0 <= k < |a[1..]| ==> a[1..][k] == a[k + 1];
    }
  }

  /** A power of two has one bit. */
  lemma {:induction false} PowerDigits(j: nat, len: nat)
    requires j < len
    ensures forall k :: 0 <= k < len ==> (Digits(Pow2(j), len)[k] <==> k == j)
  {
    if j == 0 {
      ZeroDigits(len - 1);
    } else {
      PowerDigits(j - 1, len - 1);
    }
  }

  lemma {:induction false} ZeroDigits(len: nat)
    ensures forall k :: 0 <= k < len ==> !Digits(0, len)[k]
  {
    if len > 0 { ZeroDigits(len - 1); }
  }

  /** Bit `k` of a number. */
  predicate BitAt(n: nat, k: nat) {
    n / Pow2(k) % 2 == 1
  }

  /** The digits of a number are its bits. */
  lemma {:induction false} DigitsAt(n: nat, len: nat, k: nat)
    requires k < len
    ensures Digits(n, len)[k] <==> BitAt(n, k)
  {
    if k > 0 {
      DigitsAt(n / 2, len - 1, k - 1);
      HalfThen(n, Pow2(k - 1));
    }
  }

  lemma HalfThen(n: nat, p: nat)
    requires p > 0
    ensures n / 2 / p == n / (2 * p)
  {
    var d := 2 * p;
    var (q, r) := (n / d, n % d);
    var k := p * q;
    assert n == d * q + r && d * q == 2 * k;
    assert n / 2 == k + r / 2;
    QuotientUnique(n / 2, p, q, r / 2);
  }

  lemma QuotientUnique(n: nat, d: nat, q: nat, r: nat)
    requires r < d && n == d * q + r
    ensures n / d == q
  {
    ModUnique(n, d, q, r);
    assert n == d * (n / d) + n % d;
    assert d * (n / d) == d * q;
    assert d * (n / d - q) == 0;
    SmallMultiple(d, n / d - q);
  }

  lemma CodeBits(n: nat)
    ensures forall k :: 0 <= k < 16 ==> (Code(n)[k] <==> BitAt(n, k))
  {
    forall k | 0 <= k < 16 ensures Code(n)[k] <==> BitAt(n, k) { DigitsAt(n, 16, k); }
  }

  /** The low digits are the remainder. */
  lemma {:induction false} LowDigits(a: Bits, n: nat)
    requires n <= |a|
    ensures Num(a[..n]) == Num(a) % Pow2(n)
  {
    if n > 0 {
      LowDigits(a[1..], n - 1);
      assert a[..n][1..] == a[1..][..n - 1];
      assert Num(a) / 2 == Num(a[1..]);
      ModTwice(Num(a), Pow2(n - 1));
    }
  }

  // ---- fields ------------------------------------------------------------------------------

  /** What a caller checks: the value is below two to the width of the field. */
  predicate Fits(h: nat, l: nat, v: Word)
    requires l <= h < 16
  {
    Num(v) < Pow2(h - l + 1)
  }

  lemma GetFits(w: Word, h: nat, l: nat)
    requires l <= h < 16
    ensures Fits(h, l, GetField(w, h, l))
  {
    GetBits(w, h, l);
    SmallBits(GetField(w, h, l), h - l + 1);
  }

  /** A value is read back exactly when it fits its field. */
  lemma GetPut(w: Word, h: nat, l: nat, v: Word)
    requires l <= h < 16
    ensures GetField(PutField(w, h, l, v), h, l) == v <==> Fits(h, l, v)
  {
    var r := GetField(PutField(w, h, l, v), h, l);
    GetFits(PutField(w, h, l, v), h, l);
    if Fits(h, l, v) {
      GetBits(PutField(w, h, l, v), h, l);
      PutBits(w, h, l, v);
      SmallBits(v, h - l + 1);
      assert forall k :: 0 <= k < 16 ==> r[k] == v[k];
    }
  }

  /** Writing a fitting value moves no disjoint field. */
  lemma GetPutOther(w: Word, h: nat, l: nat, v: Word, h2: nat, l2: nat)
    requires l <= h < 16 && l2 <= h2 < 16 && Fits(h, l, v) && (h < l2 || h2 < l)
    ensures GetField(PutField(w, h, l, v), h2, l2) == GetField(w, h2, l2)
  {
    GetBits(PutField(w, h, l, v), h2, l2);
    GetBits(w, h2, l2);
    PutBits(w, h, l, v);
    SmallBits(v, h - l + 1);
    assert forall k :: 0 <= k < 16 ==> GetField(PutField(w, h, l, v), h2, l2)[k] == GetField(w, h2, l2)[k];
  }

  /** Overwriting a field and then writing its old contents back gives the old word. */
  lemma PutBack(w: Word, h: nat, l: nat, u: Word)
    requires l <= h < 16 && Fits(h, l, u)
    ensures PutField(PutField(w, h, l, u), h, l, GetField(w, h, l)) == w
  {
    var mid := PutField(w, h, l, u);
    PutBits(w, h, l, u);
    PutBits(mid, h, l, GetField(w, h, l));
    GetBits(w, h, l);
    SmallBits(u, h - l + 1);
    assert forall k :: 0 <= k < 16 ==> PutField(mid, h, l, GetField(w, h, l))[k] == w[k];
  }

  // ---- bits --------------------------------------------------------------------------------

  function BitOf(on: bool): Word {
    Code(if on then 1 else 0)
  }

  /** AC400_GET_BIT and AC400_PUT_BIT read and write one bit, and are the one-bit fields. */
  lemma BitOps(w: Word, b: nat, on: bool)
    requires b < 16
    ensures GetBit(w, b) == BitOf(w[b]) && PutBit(w, b, on) == w[b := on] && TestBit(w, b) == w[b]
    ensures GetField(w, b, b) == GetBit(w, b) && PutField(w, b, b, BitOf(on)) == PutBit(w, b, on)
    ensures Fits(b, b, BitOf(on)) && (BitOf(true) != BitOf(false))
  {
    BitMacros(w, b, on);
    BitField(w, b, on);
    NumOfCode(1);
    NumOfCode(0);
  }

  lemma BitMacros(w: Word, b: nat, on: bool)
    requires b < 16
    ensures GetBit(w, b) == BitOf(w[b]) && PutBit(w, b, on) == w[b := on] && TestBit(w, b) == w[b]
  {
    GetIsBit(w, b);
    PutIsBit(w, b, on);
    TestIsBit(w, b);
  }

  lemma GetIsBit(w: Word, b: nat)
    requires b < 16
    ensures GetBit(w, b) == BitOf(w[b])
  {
    BitDigits(w[b]);
    assert forall k :: 0 <= k < 16 ==> GetBit(w, b)[k] == BitOf(w[b])[k];
  }

  lemma PutIsBit(w: Word, b: nat, on: bool)
    requires b < 16
    ensures PutBit(w, b, on) == w[b := on]
  {
    assert forall k :: 0 <= k < 16 ==> PutBit(w, b, on)[k] == w[b := on][k];
  }

  lemma TestIsBit(w: Word, b: nat)
    requires b < 16
    ensures TestBit(w, b) == w[b]
  {
    var masked := And(w, Shl(Bit(true), b));
    if w[b] {
      assert masked[b] && !Bit(false)[b];
    } else {
      assert forall k :: 0 <= k < 16 ==> masked[k] == Bit(false)[k];
    }
  }

  lemma BitField(w: Word, b: nat, on: bool)
    requires b < 16
    ensures GetField(w, b, b) == BitOf(w[b]) && PutField(w, b, b, BitOf(on)) == w[b := on]
  {
    BitDigits(on);
    BitDigits(w[b]);
    GetBits(w, b, b);
    PutBits(w, b, b, BitOf(on));
    assert forall k :: 0 <= k < 16 ==> GetField(w, b, b)[k] == BitOf(w[b])[k];
    assert forall k :: 0 <= k < 16 ==> PutField(w, b, b, BitOf(on))[k] == w[b := on][k];
  }

  lemma BitDigits(on: bool)
    ensures forall k :: 0 <= k < 16 ==> (BitOf(on)[k] <==> k == 0 && on)
  {
    NumOfCode(if on then 1 else 0);
    SmallBits(BitOf(on), 1);
  }
}
