/** Signed 128-bit numbers as two machine words, and what the word operations come to. */
module Int128Words {
  import opened Basics

  const W: int := 0x1_0000_0000_0000_0000
  const M: int := 0x1_0000_0000_0000_0000_0000_0000_0000_0000

  /** What is left of an integer in an unsigned or a signed 64-bit word. */
  function U64(x: int): int { x % W }

  function S64(x: int): int { if x % W < W / 2 then x % W else x % W - W }

  /** What is left of an integer in 128 bits of two's complement. */
  function Wrap(x: int): int { if x % M < M / 2 then x % M else x % M - M }

  /** lo is unsigned, hi signed. */
  datatype Words = Words(lo: int, hi: int)

  predicate Fits(w: Words) { 0 <= w.lo < W && -W / 2 <= w.hi < W / 2 }

  function Value(w: Words): int { w.hi * W + w.lo }

  const ZERO := Words(0, 0)

  lemma ValueRange(w: Words)
    requires Fits(w)
    ensures -M / 2 <= Value(w) < M / 2 && Wrap(Value(w)) == Value(w)
  {
  }

  lemma WrapShift(x: int, k: int)
    ensures Wrap(x + k * M) == Wrap(x)
  {
    ModShift(x, k, M);
  }

  lemma TimesFar(k: int, m: int)
    requires m > 0
    ensures (k >= 1 ==> k * m >= m) && (k <= -1 ==> k * m <= -m)
  {
  }

  /** Quotient and remainder are unique. */
  lemma DivUnique(x: int, q: int, r: int, m: int)
    requires x == q * m + r && 0 <= r < m
    ensures q == x / m && r == x % m
  {
    assert x == (x / m) * m + x % m;
    assert (q - x / m) * m == x % m - r;
    TimesFar(q - x / m, m);
  }

  lemma ModShift(x: int, k: int, m: int)
    requires m > 0
    ensures (x + k * m) % m == x % m
  {
    assert x + k * m == (x / m + k) * m + x % m;
    DivUnique(x + k * m, x / m + k, x % m, m);
  }

  // ---------- sums ----------

  /** Both words are added; a low word that came out smaller than before carries one over. */
  function Added(a: Words, b: Words): Words {
    var lo := U64(a.lo + b.lo);
    var hi := S64(a.hi + b.hi);
    Words(lo, if lo < a.lo then S64(hi + 1) else hi)
  }

  function Negated(a: Words): Words {
    if a.lo == 0 then Words(0, S64(-a.hi)) else Words(U64(-a.lo), S64(-a.hi - 1))
  }

  lemma WordsOf(x: int, hi: int, lo: int)
    requires 0 <= lo < W && x == hi * W + lo
    ensures Value(Words(lo, S64(hi))) == Wrap(x) && Fits(Words(lo, S64(hi)))
  {
    var k := (hi - S64(hi)) / W;
    assert hi == S64(hi) + k * W;
    assert hi * W + lo == S64(hi) * W + lo + k * M;
    WrapShift(S64(hi) * W + lo, k);
    ValueRange(Words(lo, S64(hi)));
  }

  lemma U64Range(x: int)
    ensures 0 <= U64(x) < W
  {
  }

  lemma CarrySum(a: int, b: int)
    requires 0 <= a < W && 0 <= b < W
    ensures a + b == U64(a + b) + if U64(a + b) < a then W else 0
  {
  }

  lemma S64Next(x: int)
    ensures S64(S64(x) + 1) == S64(x + 1)
  {
  }

  lemma AddedValue(a: Words, b: Words)
    requires Fits(a) && Fits(b)
    ensures Fits(Added(a, b)) && Value(Added(a, b)) == Wrap(Value(a) + Value(b))
  {
    hide Wrap, S64, U64;
    var lo := U64(a.lo + b.lo);
    U64Range(a.lo + b.lo);
    CarrySum(a.lo, b.lo);
    S64Next(a.hi + b.hi);
    WordsOf(Value(a) + Value(b), a.hi + b.hi + if lo < a.lo then 1 else 0, lo);
  }

  lemma NegatedValue(a: Words)
    requires Fits(a)
    ensures Fits(Negated(a)) && Value(Negated(a)) == Wrap(-Value(a))
  {
    WordsOf(-Value(a), if a.lo == 0 then -a.hi else -a.hi - 1, U64(-a.lo));
  }

  // ---------- shifts ----------

  /** a | c where the n low bits of a are clear and c has no others. */
  function OrLow(a: int, c: int, n: nat): int
    requires a % Pow2(n) == 0 && 0 <= c < Pow2(n)
  {
    a + c
  }

  lemma Pow32()
    ensures Pow2(32) == 0x1_0000_0000
  {
    assert Pow2(4) == 16;
    hide Pow2;
    Pow2Add(4, 4);
    Pow2Add(8, 8);
    Pow2Add(16, 16);
  }

  lemma Pow64()
    ensures Pow2(64) == W && Pow2(63) == W / 2 && Pow2(128) == M && Pow2(127) == M / 2
  {
    assert Pow2(1) == 2;
    Pow32();
    hide Pow2;
    Pow2Add(32, 32);
    Pow2Add(64, 64);
    Pow2Add(1, 63);
    Pow2Add(1, 127);
  }

  lemma PowSplit(n: nat)
    requires n <= 64
    ensures Pow2(n) * Pow2(64 - n) == W
  {
    Pow64();
    Pow2Add(n, 64 - n);
  }

  lemma MultipleMod(k: int, m: int)
    requires m > 0
    ensures (k * m) % m == 0 && k * m / m == k
  {
    DivUnique(k * m, k, 0, m);
  }

  /** What a signed word keeps of a multiple of p is one too, at least p below the limit. */
  lemma SignedMultiple(hi: int, p: int, q: int, h: int) returns (k: int)
    requires p > 0 && q == 2 * h && p * q == W
    ensures S64(hi * p) == hi * p - k * W && S64(hi * p) % p == 0 && S64(hi * p) <= W / 2 - p
  {
    var x := hi * p;
    k := (x - S64(x)) / W;
    assert S64(x) == x - k * W;
    var m := hi - k * q;
    assert k * W == (k * q) * p;
    assert S64(x) == m * p;
    MultipleMod(m, p);
    assert W / 2 == h * p;
    assert (h - m) * p == W / 2 - S64(x);
    TimesFar(h - m, p);
  }

  lemma {:induction false} HighShifted(hi: int, n: nat)
    requires 0 < n < 64
    ensures S64(hi * Pow2(n)) % Pow2(n) == 0 && S64(hi * Pow2(n)) <= W / 2 - Pow2(n)
    ensures exists k :: S64(hi * Pow2(n)) == hi * Pow2(n) - k * W
  {
    PowSplit(n);
    assert Pow2(64 - n) == 2 * Pow2(63 - n);
    hide Pow2, S64;
    var k := SignedMultiple(hi, Pow2(n), Pow2(64 - n), Pow2(63 - n));
  }

  lemma QuotientBelow(x: int, p: int, q: int)
    requires p > 0 && q > 0 && 0 <= x < p * q
    ensures 0 <= x / q < p
  {
    assert x == (x / q) * q + x % q;
    assert (x / q - p) * q < 0;
    TimesFar(x / q - p, q);
    TimesFar(x / q, q);
  }

  /** `<<=`: the high bits of the low word move into the high word. */
  function ShiftedLeft(w: Words, n: nat): Words
    requires Fits(w)
  {
    if n >= 128 then ZERO
    else if n >= 64 then Words(0, S64(U64(w.lo * Pow2(n - 64))))
    else if n == 0 then w
    else
      HighShifted(w.hi, n);
      PowSplit(n);
      QuotientBelow(w.lo, Pow2(n), Pow2(64 - n));
      Words(U64(w.lo * Pow2(n)), OrLow(S64(w.hi * Pow2(n)), w.lo / Pow2(64 - n), n))
  }

  /** `>>=`: the low bits of the high word move into the low word, the sign is kept. */
  function ShiftedRight(w: Words, n: nat): Words
    requires Fits(w)
  {
    var sign := if w.hi < 0 then -1 else 0;
    if n >= 128 then Words(U64(sign), sign)
    else if n >= 64 then Words(U64(w.hi / Pow2(n - 64)), sign)
    else if n == 0 then w
    else
      PowSplit(n);
      MultipleMod(w.hi % Pow2(n), Pow2(64 - n));
      QuotientBelow(w.lo, Pow2(64 - n), Pow2(n));
      Words(OrLow((w.hi % Pow2(n)) * Pow2(64 - n), w.lo / Pow2(n), 64 - n), w.hi / Pow2(n))
  }

  lemma S64Sum(x: int, c: int)
    requires -W / 2 <= S64(x) + c < W / 2
    ensures S64(x + c) == S64(x) + c
  {
  }

  lemma Distribute(a: int, b: int, c: int, d: int)
    ensures (a * b + c) * d == a * (b * d) + c * d
  {
  }

  lemma {:induction false} ShiftedOut(w: Words, n: nat)
    requires Fits(w) && n >= 128
    ensures Wrap(Value(w) * Pow2(n)) == 0
  {
    Pow64();
    Pow2Add(128, n - 128);
    var v, r := Value(w), Pow2(n - 128);
    assert Wrap(0) == 0;
    WrapShift(0, v * r);
    hide Pow2, Value, Wrap;
    Distribute(0, 0, v * r, M);
    assert v * (M * r) == (v * r) * M;
  }

  /** A left shift by a word and more: r is what is left of the factor. */
  lemma ShiftedLeftFar(w: Words, r: int)
    requires Fits(w)
    ensures var v := Words(0, S64(U64(w.lo * r)));
      Fits(v) && Value(v) == Wrap(Value(w) * (W * r))
  {
    assert S64(U64(w.lo * r)) == S64(w.lo * r);
    var x := w.lo * r;
    WordsOf(x * W, x, 0);
    WrapShift(x * W, w.hi * r);
    hide Wrap, S64, U64;
    Distribute(w.hi, W, w.lo, W * r);
    assert w.hi * (W * (W * r)) == (w.hi * r) * M;
    assert w.lo * (W * r) == x * W;
  }

  /** The arithmetic of a left shift by less than a word: p is 2^n and q is 2^(64-n). */
  lemma LowShifted(lo: int, p: int, q: int)
    requires 0 <= lo < W && p > 0 && q > 0 && p * q == W
    ensures 0 <= lo / q < p && U64(lo * p) == (lo % q) * p && lo * p == (lo / q) * W + U64(lo * p)
  {
    var c, d := lo / q, lo % q;
    QuotientBelow(lo, p, q);
    assert lo == c * q + d;
    Distribute(c, q, d, p);
    assert q * p == W;
    assert (q - d) * p > 0 by { TimesFar(q - d, p); }
    Distribute(q, 1, -d, p);
    assert 0 <= d * p < W;
    DivUnique(lo * p, c, d * p, W);
  }

  lemma ShiftedLeftNear(w: Words, p: int, q: int)
    requires Fits(w) && p > 0 && q > 0 && p * q == W && S64(w.hi * p) <= W / 2 - p
    ensures var v := Words(U64(w.lo * p), S64(w.hi * p) + w.lo / q);
      Fits(v) && Value(v) == Wrap(Value(w) * p)
  {
    var c := w.lo / q;
    LowShifted(w.lo, p, q);
    S64Sum(w.hi * p, c);
    Distribute(w.hi, W, w.lo, p);
    var x, y := w.hi * p, U64(w.lo * p);
    assert w.hi * (W * p) == x * W;
    assert 0 <= y < W;
    hide Wrap, S64, U64;
    WordsOf(x * W + c * W + y, x + c, y);
  }

  lemma {:induction false} ShiftedLeftValue(w: Words, n: nat)
    requires Fits(w)
    ensures Fits(ShiftedLeft(w, n)) && Value(ShiftedLeft(w, n)) == Wrap(Value(w) * Pow2(n))
  {
    if n >= 128 {
      ShiftedOut(w, n);
    } else if n >= 64 {
      Pow64();
      Pow2Add(64, n - 64);
      ShiftedLeftFar(w, Pow2(n - 64));
    } else if n == 0 {
      ValueRange(w);
    } else {
      HighShifted(w.hi, n);
      PowSplit(n);
      hide Pow2, S64, U64, Wrap;
      ShiftedLeftNear(w, Pow2(n), Pow2(64 - n));
    }
  }

  /** The arithmetic of a right shift by less than a word: p is 2^n and q is 2^(64-n). */
  lemma ShiftedRightNear(w: Words, p: int, q: int)
    requires Fits(w) && p > 1 && q > 0 && p * q == W
    ensures var v := Words((w.hi % p) * q + w.lo / p, w.hi / p);
      Fits(v) && Value(v) == Value(w) / p
  {
    hide Wrap, S64, U64;
    var h, m, c, d := w.hi / p, w.hi % p, w.lo / p, w.lo % p;
    HalfRange(w.hi, p);
    QuotientBelow(w.lo, q, p);
    assert w.hi == h * p + m && w.lo == c * p + d;
    assert 0 <= c < q && 0 <= m < p && 0 <= d < p;
    JoinHalves(h, m, c, d, p, q, W);
    DivUnique(Value(w), h * W + m * q + c, d, p);
  }

  lemma JoinHalves(h: int, m: int, c: int, d: int, p: int, q: int, w: int)
    requires p * q == w && 0 <= m < p && 0 <= c < q
    ensures (h * p + m) * w + (c * p + d) == (h * w + m * q + c) * p + d
    ensures 0 <= m * q + c < w
  {
    Distribute(h, p, m, w);
    assert m * w == (m * q) * p;
    assert h * (p * w) == (h * w) * p;
    assert (p - m) * q >= q by { TimesFar(p - m, q); }
    assert m * q >= 0;
  }

  lemma HalfRange(x: int, p: int)
    requires p > 0 && -W / 2 <= x < W / 2
    ensures -W / 2 <= x / p < W / 2
  {
    var k := x / p;
    assert x == k * p + x % p;
    if k >= 0 { TimesUp(k, p); } else { TimesUp(-k - 1, p); }
  }

  lemma {:induction false} TimesUp(k: nat, p: int)
    requires p > 0
    ensures k * p >= k && k * p + (p - 1) >= k
  {
    if k > 0 { TimesUp(k - 1, p); }
  }

  lemma {:induction false} ShiftedRightValue(w: Words, n: nat)
    requires Fits(w)
    ensures Fits(ShiftedRight(w, n)) && Value(ShiftedRight(w, n)) == Value(w) / Pow2(n)
  {
    if n >= 128 {
      OnlySignLeft(w, n);
    } else if n >= 64 {
      Pow64();
      Pow2Add(64, n - 64);
      hide Pow2, Value;
      ShiftedRightFar(w, Pow2(n - 64));
    } else if n > 0 {
      PowSplit(n);
      Pow2Step(n);
      hide Pow2;
      ShiftedRightNear(w, Pow2(n), Pow2(64 - n));
    }
  }

  /** Shifting by all bits and more leaves the sign in every bit. */
  lemma {:induction false} OnlySignLeft(w: Words, n: nat)
    requires Fits(w) && n >= 128
    ensures Fits(ShiftedRight(w, n)) && Value(ShiftedRight(w, n)) == Value(w) / Pow2(n)
  {
    var sign := if w.hi < 0 then -1 else 0;
    Pow64();
    Pow2Mono(128, n);
    hide Pow2;
    ValueRange(w);
    SignExtended(sign);
    DivUnique(Value(w), sign, Value(w) - sign * Pow2(n), Pow2(n));
  }

  lemma JoinFar(h: int, m: int, lo: int, r: int, w: int)
    requires 0 <= m < r && 0 <= lo < w
    ensures (h * r + m) * w + lo == h * (w * r) + (m * w + lo) && 0 <= m * w + lo < w * r
  {
    Distribute(h, r, m, w);
    TimesFar(r - m, w);
    assert (r - m) * w >= w;
    assert m * w >= 0;
  }

  lemma SignExtended(h: int)
    requires -W / 2 <= h < W / 2
    ensures U64(h) == if h < 0 then h + W else h
  {
  }

  /** A right shift by a word and more: r is the rest of the divisor. */
  lemma ShiftedRightFar(w: Words, r: int)
    requires Fits(w) && r > 0
    ensures var v := Words(U64(w.hi / r), if w.hi < 0 then -1 else 0);
      Fits(v) && Value(v) == Value(w) / (W * r)
  {
    var h, m := w.hi / r, w.hi % r;
    assert w.hi == h * r + m && 0 <= m < r;
    HalfRange(w.hi, r);
    SignKept(w.hi, r);
    SignExtended(h);
    JoinFar(h, m, w.lo, r, W);
    hide Wrap, S64, U64;
    DivUnique(Value(w), h, m * W + w.lo, W * r);
  }

  lemma SignKept(x: int, p: int)
    requires p > 0
    ensures x < 0 <==> x / p < 0
  {
    assert x == (x / p) * p + x % p;
    TimesFar(x / p, p);
  }

  // ---------- bits and comparison ----------

  predicate Bit(w: Words, n: nat) {
    if n >= 128 then w.hi < 0
    else if n < 64 then w.lo / Pow2(n) % 2 == 1
    else w.hi / Pow2(n - 64) % 2 == 1
  }

  lemma LowParity(w: Words)
    ensures Value(w) % 2 == w.lo % 2
  {
    assert w.hi * W == (w.hi * (W / 2)) * 2;
    ModShift(w.lo, w.hi * (W / 2), 2);
  }

  lemma WordParity(x: int)
    ensures U64(x) % 2 == x % 2
  {
  }

  lemma {:induction false} BitValue(w: Words, n: nat)
    requires Fits(w)
    ensures Bit(w, n) <==> Value(w) / Pow2(n) % 2 == 1
  {
    hide Pow2, Value;
    LowParity(ShiftedRight(w, n));
    ShiftedRightValue(w, n);
    if n >= 128 {
      WordParity(if w.hi < 0 then -1 else 0);
    } else if n >= 64 {
      WordParity(w.hi / Pow2(n - 64));
    } else if n > 0 {
      Pow2Step(64 - n);
      EvenPlus(w.hi % Pow2(n), Pow2(63 - n), w.lo / Pow2(n));
    }
    hide U64;
    Pow2Small();
  }

  lemma EvenPlus(m: int, h: int, c: int)
    ensures (m * (2 * h) + c) % 2 == c % 2
  {
    assert m * (2 * h) + c == c + (m * h) * 2;
    ModShift(c, m * h, 2);
  }

  /** Setting bit n, by |. */
  function WithBit(w: Words, n: nat): Words {
    if n >= 128 || Bit(w, n) then w
    else if n < 64 then Words(w.lo + Pow2(n), w.hi)
    else Words(w.lo, S64(w.hi + Pow2(n - 64)))
  }

  lemma {:induction false} LowBitSet(w: Words, n: nat)
    requires Fits(w) && n < 64 && w.lo / Pow2(n) % 2 == 0
    ensures w.lo + Pow2(n) < W
  {
    hide Pow2;
    PowSplit(n);
    Pow2Step(64 - n);
    ClearBitFits(w.lo, Pow2(n), Pow2(63 - n));
  }

  /** Setting a bit adds its weight, unless it is set or there is no such bit. The highest one wraps. */
  lemma {:induction false} WithBitValue(w: Words, n: nat)
    requires Fits(w)
    ensures Fits(WithBit(w, n))
    ensures Value(WithBit(w, n)) == if n >= 128 || Bit(w, n) then Value(w) else Wrap(Value(w) + Pow2(n))
  {
    hide Pow2, Wrap, S64;
    if n < 128 && !Bit(w, n) {
      if n < 64 {
        LowBitSet(w, n);
        ValueRange(Words(w.lo + Pow2(n), w.hi));
      } else {
        Pow64();
        Pow2Add(64, n - 64);
        WordsOf(Value(w) + Pow2(n), w.hi + Pow2(n - 64), w.lo);
      }
    }
  }

  /** A word with a bit clear, the one of weight p, stays a word when it is added. */
  lemma ClearBitFits(x: int, p: int, h: int)
    requires 0 <= x < W && p > 0 && h > 0 && p * (2 * h) == W && x / p % 2 == 0
    ensures x + p < W
  {
    var k := x / p;
    QuotientBelow(x, 2 * h, p);
    var gap := 2 * h - (k + 2);
    assert x == k * p + x % p;
    Distribute(k, 1, 2, p);
    Distribute(gap, 1, k + 2, p);
    TimesUp(gap, p);
  }

  /** operator<: of two numbers with the same negative high word the low words are compared as
      signed. */
  predicate Less(a: Words, b: Words) {
    if a.hi == b.hi then (if a.hi < 0 then S64(a.lo) < S64(b.lo) else a.lo < b.lo) else a.hi < b.hi
  }

  /** That is numeric order exactly if the low words, where it matters, are on the same side of 2^63. */
  lemma LessIsOrder(a: Words, b: Words)
    requires Fits(a) && Fits(b)
    ensures (Less(a, b) <==> Value(a) < Value(b)) <==>
            !(a.hi == b.hi && a.hi < 0 && (a.lo < W / 2) != (b.lo < W / 2))
  {
  }
}
