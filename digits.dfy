/** Positional base-16 arithmetic shared by the client codec and the server's
    comparison: a digit vector is read most significant digit first. */
module Digits {
  import opened FheTypes

  function Pow16(k: nat): (p: nat)
    ensures p >= 1
  {
    if k == 0 then 1 else 16 * Pow16(k - 1)
  }

  /** The value of a digit vector, most significant first: the left fold
      acc := acc * 16 + d. */
  function Value(ds: seq<Nibble>): nat
  {
    if ds == [] then 0 else Value(ds[..|ds| - 1]) * 16 + ds[|ds| - 1]
  }

  /** `k` zero digits. */
  function Zeros(k: nat): (z: seq<Nibble>)
    ensures |z| == k
  {
    seq(k, _ => 0)
  }

  /** Zero-pad at the end up to `len` entries, or keep the first `len`. */
  function PadTo(ns: seq<Nibble>, len: nat): (r: seq<Nibble>)
    ensures |r| == len
    ensures |ns| <= len ==> r[..|ns|] == ns && r[|ns|..] == Zeros(len - |ns|)
    ensures |ns| >= len ==> r == ns[..len]
  {
    if |ns| < len then ns + Zeros(len - |ns|) else ns[..len]
  }

  /** `n` shifted right by `4 * k` bits (`>>` on a BigInt floors, as `/` does here). */
  function Shr(n: int, k: nat): int
    decreases k
  {
    if k == 0 then n else Shr(n / 16, k - 1)
  }

  /** The `k` low hexadecimal digits of `n`, most significant first. */
  function LowDigits(n: int, k: nat): (ds: seq<Nibble>)
    ensures |ds| == k
    decreases k
  {
    if k == 0 then [] else LowDigits(n / 16, k - 1) + [n % 16]
  }

  lemma {:induction false} ValueBounds(ds: seq<Nibble>)
    ensures 0 <= Value(ds) < Pow16(|ds|)
  {
    if ds != [] {
      ValueBounds(ds[..|ds| - 1]);
    }
  }

  /** Appending a digit to a split value: the arithmetic of one fold step. */
  lemma ShiftDigit(x: int, p: int, v: int, d: int)
    ensures (x * p + v) * 16 + d == x * (p * 16) + (v * 16 + d)
  {
  }

  /** Concatenation shifts the prefix by the length of the suffix. */
  lemma {:induction false} ValueAppend(a: seq<Nibble>, b: seq<Nibble>)
    ensures Value(a + b) == Value(a) * Pow16(|b|) + Value(b)
  {
    if b == [] {
      assert a + b == a;
    } else {
      var b' := b[..|b| - 1];
      assert (a + b)[..|a + b| - 1] == a + b';
      ValueAppend(a, b');
      var x, p, v, d := Value(a), Pow16(|b'|), Value(b'), b[|b| - 1];
      assert Value(a + b) == (x * p + v) * 16 + d;
      assert Pow16(|b|) == p * 16 && Value(b) == v * 16 + d;
      ShiftDigit(x, p, v, d);
    }
  }

  lemma {:induction false} ValueZeros(k: nat)
    ensures Value(Zeros(k)) == 0
  {
    if k > 0 {
      assert Zeros(k)[..k - 1] == Zeros(k - 1);
      ValueZeros(k - 1);
    }
  }

  /** Left-padding with zero digits keeps the value. */
  lemma ValuePadded(k: nat, v: seq<Nibble>)
    ensures Value(Zeros(k) + v) == Value(v)
  {
    ValueAppend(Zeros(k), v);
    ValueZeros(k);
  }

  /** The low digits and the shifted-out high part recompose `n`. */
  lemma {:induction false} LowDigitsValue(n: int, k: nat)
    ensures Value(LowDigits(n, k)) + Pow16(k) * Shr(n, k) == n
    decreases k
  {
    if k > 0 {
      var ds := LowDigits(n, k);
      assert ds[..k - 1] == LowDigits(n / 16, k - 1);
      LowDigitsValue(n / 16, k - 1);
      calc {
        Value(ds) + Pow16(k) * Shr(n, k);
        Value(LowDigits(n / 16, k - 1)) * 16 + n % 16 + 16 * (Pow16(k - 1) * Shr(n / 16, k - 1));
        16 * (Value(LowDigits(n / 16, k - 1)) + Pow16(k - 1) * Shr(n / 16, k - 1)) + n % 16;
        16 * (n / 16) + n % 16;
      }
    }
  }

  lemma {:induction false} ShrOfSmall(n: int, k: nat)
    requires 0 <= n < Pow16(k)
    ensures Shr(n, k) == 0
  {
    if k > 0 {
      ShrOfSmall(n / 16, k - 1);
    }
  }

  lemma {:induction false} ShrShr(n: int, k: nat)
    ensures Shr(n, k + 1) == Shr(n, k) / 16
    decreases k
  {
    if k > 0 {
      ShrShr(n / 16, k - 1);
    }
  }

  /** Digit `i` of the `k` low digits is `(n >> 4 * (k - 1 - i)) & 0xf`. */
  lemma {:induction false} LowDigitsAt(n: int, k: nat, i: nat)
    requires i < k
    ensures LowDigits(n, k)[i] == Shr(n, k - 1 - i) % 16
    decreases k
  {
    if i < k - 1 {
      LowDigitsAt(n / 16, k - 1, i);
    }
  }

  /** Producing the digits from the least significant end: one more digit is
      the next shifted value's low nibble, put in front. */
  lemma LowDigitsCons(n: int, k: nat)
    ensures LowDigits(n, k + 1) == [Shr(n, k) % 16] + LowDigits(n, k)
  {
    var lhs := LowDigits(n, k + 1);
    var rhs := [Shr(n, k) % 16] + LowDigits(n, k);
    forall i | 0 <= i < k + 1
      ensures lhs[i] == rhs[i]
    {
      LowDigitsAt(n, k + 1, i);
      if i > 0 {
        LowDigitsAt(n, k, i - 1);
      }
    }
  }

  /** One more digit on each side: the comparison of the longer vectors is the
      comparison of the prefixes, with the new digits breaking a tie. */
  lemma LexStep(a: int, b: int, x: Nibble, y: Nibble)
    ensures a * 16 + x > b * 16 + y <==> a > b || (a == b && x > y)
    ensures a * 16 + x == b * 16 + y <==> a == b && x == y
  {
    if a > b {
      assert a * 16 >= b * 16 + 16;
    } else if a < b {
      assert b * 16 >= a * 16 + 16;
    }
  }
}
