/** Int128: multiplication, division, and conversion from and to text. */
module Int128s {
  import opened Basics
  import opened Int128Words

  const UINT_MAX: nat := 0xFFFF_FFFF

  /** `b--` on an unsigned int. */
  function Decremented(b: nat): nat { if b == 0 then UINT_MAX else b - 1 }

  function Incremented(b: nat): nat { if b == UINT_MAX then 0 else b + 1 }

  function Abs(x: int): nat { if x < 0 then -x else x }

  const MIN: int := -M / 2

  lemma Halve(x: int, n: nat)
    ensures x / Pow2(n) == 2 * (x / Pow2(n + 1)) + x / Pow2(n) % 2
  {
    var p := Pow2(n);
    assert Pow2(n + 1) == 2 * p;
    hide Pow2;
    var q, r := x / p, x % p;
    assert x == q * p + r;
    assert q == 2 * (q / 2) + q % 2;
    assert x == (q / 2) * (2 * p) + (q % 2 * p + r) by {
      Distribute(q / 2, 2, q % 2, p);
    }
    assert q % 2 == 0 || q % 2 == 1;
    DivUnique(x, q / 2, q % 2 * p + r, 2 * p);
  }

  // ---------- division of magnitudes ----------

  /** r shifted left, with bit b of dd coming in. */
  function TakeBit(r: Words, dd: Words, b: nat): Words
    requires Fits(r)
  {
    var s := ShiftedLeft(r, 1);
    if Bit(dd, b) then s.(lo := if s.lo % 2 == 0 then s.lo + 1 else s.lo) else s
  }

  lemma SetLowBit(s: Words)
    requires Fits(s) && Value(s) % 2 == 0
    ensures s.lo % 2 == 0 && Fits(s.(lo := s.lo + 1)) && Value(s.(lo := s.lo + 1)) == Value(s) + 1
  {
    LowParity(s);
  }

  lemma {:induction false} TakeBitValue(r: Words, dd: Words, b: nat)
    requires Fits(r) && Fits(dd) && b < 128 && 0 <= Value(r)
    requires 2 * Value(r) + Value(dd) / Pow2(b) % 2 < M / 2
    ensures Fits(TakeBit(r, dd, b)) && Value(TakeBit(r, dd, b)) == 2 * Value(r) + Value(dd) / Pow2(b) % 2
  {
    hide Pow2, Bit, ShiftedLeft, Value, Fits, Wrap;
    ShiftedLeftValue(r, 1);
    Pow2Small();
    BitValue(dd, b);
    WrapSmall(2 * Value(r));
    SetLowBit(ShiftedLeft(r, 1));
  }

  lemma WrapSmall(x: int)
    requires -M / 2 <= x < M / 2
    ensures Wrap(x) == x
  {
  }

  lemma LessNonnegative(a: Words, b: Words)
    requires Fits(a) && Fits(b) && Value(a) >= 0 && Value(b) >= 0
    ensures Less(a, b) <==> Value(a) < Value(b)
  {
    LessIsOrder(a, b);
  }

  lemma TopBitClear(x: int)
    requires 0 <= x < M / 2
    ensures x / Pow2(127) == 0
  {
    Pow64();
  }

  lemma {:induction false} PrefixBelow(x: nat, n: nat)
    ensures 0 <= x / Pow2(n) <= x
  {
    hide Pow2;
    var p := Pow2(n);
    assert x == (x / p) * p + x % p;
    if x / p < 0 { TimesFar(x / p, p); }
    TimesUp(x / p, p);
  }

  /** The quotient q so far has k as its bits from weight p up; r is what it leaves of x, the bits
      of the dividend down to there. */
  predicate Dividing(x: int, ds: int, p: int, q: int, r: int, k: int) {
    q == k * p && x == k * ds + r && 0 <= r < 2 * ds && k >= 0 && (r >= ds ==> k % 2 == 0)
  }

  lemma Associate(a: int, b: int, c: int)
    ensures (a * b) * c == a * (b * c)
  {
  }

  lemma DoubledRemainder(x: int, y: int, bit: int, ds: int, r: int, k: nat)
    requires x == 2 * y + bit && y == k * ds + r && 0 <= bit < 2 && 0 <= r < ds
    ensures x == (2 * k) * ds + (2 * r + bit) && 0 <= 2 * r + bit < 2 * ds && 2 * r + bit <= x
  {
    Associate(2, k, ds);
    TimesUp(k, ds);
  }

  lemma NextBit(y: int, x: int, bit: int, ds: int, p: int, q: int, r: int, k: int)
    requires Dividing(y, ds, 2 * p, q, r, k) && r < ds && x == 2 * y + bit && 0 <= bit < 2
    ensures Dividing(x, ds, p, q, 2 * r + bit, 2 * k) && 2 * r + bit <= x
  {
    Associate(k, 2, p);
    DoubledRemainder(x, y, bit, ds, r, k);
  }

  /** The next quotient bit, of weight p, does not reach beyond dd. */
  lemma WithinDividend(dd: int, p: int, k: nat)
    requires p > 0 && k <= dd / p
    ensures k * p <= dd
  {
    assert dd == (dd / p) * p + dd % p;
    assert (dd / p - k) * p >= 0 by { TimesUp(dd / p - k, p); }
  }

  lemma Subtracted(x: int, ds: int, p: int, q: int, r: int, k: int)
    requires Dividing(x, ds, p, q, r, k) && r >= ds > 0 && p > 0
    ensures Dividing(x, ds, p, q + p, r - ds, k + 1)
    ensures q / p % 2 == 0 && 0 <= q && q + p == (k + 1) * p && k + 1 <= x
  {
    Distribute(k, 1, 1, p);
    Distribute(k, 1, 1, ds);
    MultipleMod(k, p);
    TimesUp(k, ds);
    TimesUp(k, p);
  }

  /** A quotient bit fits into the number. */
  lemma {:induction false} BitFits(dd: int, b: nat, k: nat)
    requires 0 <= dd < M / 2 && k + 1 <= dd / Pow2(b)
    ensures (k + 1) * Pow2(b) < M / 2 && b < 127
  {
    WithinDividend(dd, Pow2(b), k + 1);
    Pow64();
    if b >= 127 { Pow2Mono(127, b); }
    TimesUp(k, Pow2(b));
    Distribute(k, 1, 1, Pow2(b));
  }

  // ---------- the rounds of the two loops ----------

  /** Where the loops stand: bits are shifted into r until it reaches the divisor, which starts with
      bit b; or the divisor is subtracted from r and bit b of the quotient q set where it goes. */
  datatype Loops = Shifting(b: nat, r: Words) | Subtracting(b: nat, q: Words, r: Words)

  const START: Loops := Shifting(127, ZERO)

  lemma TakeBitFits(r: Words, dd: Words, b: nat)
    requires Fits(r)
    ensures Fits(TakeBit(r, dd, b))
  {
    hide Pow2, Bit, ShiftedLeft;
    ShiftedLeftValue(r, 1);
  }

  /** One round, or none where the second loop is left. */
  function Round(dd: Words, ds: Words, s: Loops): (next: Option<Loops>)
    requires Fits(ds) && Fits(s.r)
    ensures next.Some? ==> Fits(next.value.r)
  {
    NegatedValue(ds);
    AddedFits(s.r, Negated(ds));
    match s
    case Shifting(b, r) =>
      TakeBitFits(r, dd, b);
      Some(if Less(r, ds) then Shifting(Decremented(b), TakeBit(r, dd, b)) else Subtracting(Incremented(b), ZERO, r))
    case Subtracting(b, q, r) =>
      if !Less(r, ds) then Some(Subtracting(b, WithBit(q, b), Added(r, Negated(ds))))
      else if b == 0 then None
      else
        TakeBitFits(r, dd, b - 1);
        Some(Subtracting(b - 1, q, TakeBit(r, dd, b - 1)))
  }

  lemma AddedFits(a: Words, b: Words)
    requires Fits(a) && Fits(b)
    ensures Fits(Added(a, b))
  {
    AddedValue(a, b);
  }

  /** n rounds lead from s to t. */
  predicate Reaches(dd: Words, ds: Words, s: Loops, t: Loops, n: nat)
    requires Fits(ds) && Fits(s.r)
    decreases n
  {
    if n == 0 then s == t else Round(dd, ds, s).Some? && Reaches(dd, ds, Round(dd, ds, s).value, t, n - 1)
  }

  lemma {:induction false} ReachesOn(dd: Words, ds: Words, s: Loops, t: Loops, n: nat)
    requires Fits(ds) && Fits(s.r) && Fits(t.r) && Reaches(dd, ds, s, t, n) && Round(dd, ds, t).Some?
    ensures Reaches(dd, ds, s, Round(dd, ds, t).value, n + 1)
    decreases n
  {
    hide Round;
    if n > 0 { ReachesOn(dd, ds, Round(dd, ds, s).value, t, n - 1); }
  }

  /** The loops are left at t after n rounds. */
  predicate LeftAt(dd: Words, ds: Words, s: Loops, t: Loops, n: nat)
    requires Fits(ds) && Fits(s.r)
  {
    Reaches(dd, ds, s, t, n) && Fits(t.r) && Round(dd, ds, t) == None
  }

  /** r is what has been shifted in of dd, with n bits to go. */
  predicate Aligning(dd: Words, ds: Words, n: nat, r: Words) {
    n <= 128 && Fits(r) && Value(r) == Value(dd) / Pow2(n) && 0 <= Value(r) < 2 * Value(ds) &&
    (Less(r, ds) <==> Value(r) < Value(ds)) && (n >= 127 ==> Value(r) == 0)
  }

  lemma AligningStarts(dd: Words, ds: Words)
    requires Fits(dd) && Fits(ds) && 0 < Value(ds) <= Value(dd)
    ensures Aligning(dd, ds, 128, ZERO)
  {
    hide Pow2;
    Pow64();
    ValueRange(dd);
    assert Value(dd) / M == 0;
    LessNonnegative(ZERO, ds);
  }

  lemma ShiftStep(dd: Words, ds: Words, n: nat, r: Words)
    requires Fits(dd) && Fits(ds) && 0 < Value(ds) <= Value(dd) && Aligning(dd, ds, n, r) && Less(r, ds)
    ensures n > 0 && Aligning(dd, ds, n - 1, TakeBit(r, dd, n - 1))
  {
    hide Less, Pow2, Bit, ShiftedLeft, TakeBit;
    Pow2Small();
    Halve(Value(dd), n - 1);
    PrefixBelow(Value(dd), n - 1);
    TakeBitValue(r, dd, n - 1);
    if n == 128 { TopBitClear(Value(dd)); }
    LessNonnegative(TakeBit(r, dd, n - 1), ds);
  }

  /** The second loop's variables in the middle of the division. */
  predicate Halving(dd: Words, ds: Words, b: nat, q: Words, r: Words, k: int) {
    b < 128 && Fits(r) && Fits(q) && 0 <= Value(r) &&
    Dividing(Value(dd) / Pow2(b), Value(ds), Pow2(b), Value(q), Value(r), k)
  }

  lemma HalvingStarts(dd: Words, ds: Words, n: nat, r: Words)
    requires Fits(dd) && Fits(ds) && 0 < Value(ds) <= Value(dd) && Aligning(dd, ds, n, r) && !Less(r, ds)
    ensures n < 127 && Incremented(Decremented(n)) == n && Halving(dd, ds, n, ZERO, r, 0)
  {
    hide Pow2, Less;
    ZeroValue();
  }

  lemma BitStep(dd: Words, ds: Words, b: nat, q: Words, r: Words, k: int)
    requires Fits(dd) && Fits(ds) && 0 < Value(ds) <= Value(dd) && Halving(dd, ds, b, q, r, k) && Less(r, ds) && b > 0
    ensures Halving(dd, ds, b - 1, q, TakeBit(r, dd, b - 1), 2 * k)
  {
    hide Pow2, Less, Bit, TakeBit, ShiftedLeft, Value, Fits, Dividing;
    ValueRange(dd);
    LessNonnegative(r, ds);
    Pow2Step(b);
    Halve(Value(dd), b - 1);
    PrefixBelow(Value(dd), b - 1);
    NextBit(Value(dd) / Pow2(b), Value(dd) / Pow2(b - 1), Value(dd) / Pow2(b - 1) % 2, Value(ds), Pow2(b - 1),
            Value(q), Value(r), k);
    TakeBitValue(r, dd, b - 1);
  }

  /** Subtracting ds from r and setting bit b of q. */
  lemma SubtractStep(dd: Words, ds: Words, b: nat, q: Words, r: Words, k: int)
    requires Fits(dd) && Fits(ds) && 0 < Value(ds) <= Value(dd) && Halving(dd, ds, b, q, r, k) && !Less(r, ds)
    ensures Halving(dd, ds, b, WithBit(q, b), Added(r, Negated(ds)), k + 1)
    ensures Value(Added(r, Negated(ds))) == Value(r) - Value(ds)
  {
    hide Pow2, Less, Bit, WithBit, Added, Negated, Value, Fits, Wrap;
    LessNonnegative(r, ds);
    ValueRange(dd);
    ValueRange(ds);
    ValueRange(r);
    NegatedExactly(ds);
    AddedValue(r, Negated(ds));
    WrapSmall(Value(r) - Value(ds));
    Subtracted(Value(dd) / Pow2(b), Value(ds), Pow2(b), Value(q), Value(r), k);
    BitFits(Value(dd), b, k);
    BitValue(q, b);
    WithBitValue(q, b);
    Distribute(k, 1, 1, Pow2(b));
    WrapSmall(Value(q) + Pow2(b));
  }

  /** Bits of dd are shifted into r until it reaches ds: r ends as the first prefix of dd that
      large, with b bits to go. */
  method Align(dd: Words, ds: Words) returns (r: Words, b: nat, ghost n: nat)
    requires Fits(dd) && Fits(ds) && 0 < Value(ds) <= Value(dd)
    ensures Fits(r) && b < 127 && Value(r) == Value(dd) / Pow2(b) && Value(ds) <= Value(r) < 2 * Value(ds)
    ensures Halving(dd, ds, b, ZERO, r, 0) && Reaches(dd, ds, START, Subtracting(b, ZERO, r), n)
  {
    hide Less, Pow2, TakeBit, Value, Fits, Reaches, Negated, Halving;
    ZeroValue();
    ghost var m: nat := 128;
    b, r, n := 127, ZERO, 0;
    AligningStarts(dd, ds);
    ReachesItself(dd, ds, START);
    while Less(r, ds)
      invariant b == Decremented(m) && Aligning(dd, ds, m, r) && Reaches(dd, ds, START, Shifting(b, r), n)
      decreases m
    {
      ShiftStep(dd, ds, m, r);
      ReachesOn(dd, ds, START, Shifting(b, r), n);
      r := TakeBit(r, dd, b);
      b := Decremented(b);
      m, n := m - 1, n + 1;
    }
    HalvingStarts(dd, ds, m, r);
    ReachesOn(dd, ds, START, Shifting(b, r), n);
    b, n := Incremented(b), n + 1;
  }

  lemma {:induction false} ReachesItself(dd: Words, ds: Words, s: Loops)
    requires Fits(ds) && Fits(s.r)
    ensures Reaches(dd, ds, s, s, 0)
  {
  }

  /** n: the rounds of the two loops until they are left. */
  method DivideMagnitudes(dd: Words, ds: Words) returns (q: Words, r: Words, ghost n: nat)
    requires Fits(dd) && Fits(ds) && 0 < Value(ds) <= Value(dd)
    ensures Fits(q) && Fits(r) && Value(dd) == Value(q) * Value(ds) + Value(r) && 0 <= Value(r) < Value(ds) &&
            0 <= Value(q)
    ensures LeftAt(dd, ds, START, Subtracting(0, q, r), n)
  {
    hide Pow2, Less, Bit, WithBit, TakeBit, Added, Negated, ShiftedLeft, Value, Fits, Wrap, Dividing, Reaches;
    ZeroValue();
    var b;
    r, b, n := Align(dd, ds);
    q := ZERO;
    ghost var k := 0;
    while true
      invariant Halving(dd, ds, b, q, r, k) && Reaches(dd, ds, START, Subtracting(b, q, r), n)
      decreases b, Value(r)
    {
      ghost var s := Subtracting(b, q, r);
      LessNonnegative(r, ds);
      if Less(r, ds) {
        if b == 0 {
          break;
        }
        BitStep(dd, ds, b, q, r, k);
        b := b - 1;
        r := TakeBit(r, dd, b);
        k := 2 * k;
      } else {
        SubtractStep(dd, ds, b, q, r, k);
        r := Added(r, Negated(ds));
        q := WithBit(q, b);
        k := k + 1;
      }
      ReachesOn(dd, ds, START, s, n);
      n := n + 1;
    }
    Pow2Small();
    Divided(Value(dd), Value(ds), Value(q), Value(r), k);
  }

  lemma Divided(dd: int, ds: int, q: int, r: int, k: int)
    requires Dividing(dd / 1, ds, 1, q, r, k)
    ensures dd == q * ds + r && 0 <= r && 0 <= q
  {
  }

  lemma ZeroValue()
    ensures Fits(ZERO) && Value(ZERO) == 0
  {
  }

  // ---------- signed division ----------

  /** q and r are quotient and remainder of a by d, rounding towards zero. */
  predicate Divides(a: int, d: int, q: int, r: int) {
    a == q * d + r && Abs(r) < Abs(d) && (r == 0 || (r < 0 <==> a < 0))
  }

  lemma SignedDivides(a: int, d: int, q: int, r: int)
    requires d != 0 && 0 <= r < Abs(d) && Abs(a) == q * Abs(d) + r
    ensures Divides(a, d, if (d < 0) != (a < 0) then -q else q, if a < 0 then -r else r)
  {
    if d < 0 { assert (-q) * d == q * (-d); }
  }

  lemma NegatedExactly(w: Words)
    requires Fits(w) && Value(w) != MIN
    ensures Fits(Negated(w)) && Value(Negated(w)) == -Value(w)
  {
    hide Wrap, Negated, Value, Fits;
    ValueRange(w);
    NegatedValue(w);
    WrapSmall(-Value(w));
  }

  function Magnitude(w: Words): Words { if w.hi < 0 then Negated(w) else w }

  lemma SignOfHigh(w: Words)
    requires Fits(w)
    ensures w.hi < 0 <==> Value(w) < 0
  {
  }

  lemma MagnitudeValue(w: Words)
    requires Fits(w) && Value(w) != MIN
    ensures Fits(Magnitude(w)) && Value(Magnitude(w)) == Abs(Value(w)) && (w.hi < 0 <==> Value(w) < 0)
  {
    hide Negated, Value, Fits;
    SignOfHigh(w);
    NegatedExactly(w);
  }

  function Signed(w: Words, minus: bool): Words { if minus then Negated(w) else w }

  lemma SignedValue(w: Words, minus: bool)
    requires Fits(w) && Value(w) != MIN
    ensures Fits(Signed(w, minus)) && Value(Signed(w, minus)) == if minus then -Value(w) else Value(w)
  {
    hide Negated, Value, Fits;
    NegatedExactly(w);
  }

  lemma MinIsItsMagnitude(w: Words)
    requires Fits(w) && Value(w) == MIN
    ensures Magnitude(w) == w
  {
  }

  /** The magnitudes compared: only that of the least dividend, which is itself, is negative. */
  lemma MagnitudesCompare(a: Words, divisor: Words)
    requires Fits(a) && Fits(divisor) && Value(divisor) != MIN && Value(divisor) != 0
    ensures var dd, ds := Magnitude(a), Magnitude(divisor);
      Fits(dd) && Fits(ds) && 0 < Value(ds) == Abs(Value(divisor)) &&
      if Less(dd, ds) then Value(a) == MIN || Abs(Value(a)) < Abs(Value(divisor))
      else Value(a) != MIN && Value(ds) <= Value(dd) == Abs(Value(a))
  {
    MagnitudeValue(divisor);
    if Value(a) == MIN { MinIsItsMagnitude(a); } else { MagnitudeValue(a); }
    LessIsOrder(Magnitude(a), Magnitude(divisor));
  }

  lemma SignedBack(a: Words, divisor: Words, q: Words, r: Words)
    requires Fits(a) && Fits(divisor) && Fits(q) && Fits(r) && Value(a) != MIN && Value(divisor) != 0
    requires Abs(Value(a)) == Value(q) * Abs(Value(divisor)) + Value(r)
    requires 0 <= Value(r) < Abs(Value(divisor)) && 0 <= Value(q)
    ensures var q', r' := Signed(q, (divisor.hi < 0) != (a.hi < 0)), Signed(r, a.hi < 0);
      Fits(q') && Fits(r') && Divides(Value(a), Value(divisor), Value(q'), Value(r'))
  {
    hide Negated, Divides, Value, Fits;
    SignOfHigh(a);
    SignOfHigh(divisor);
    SignedDivides(Value(a), Value(divisor), Value(q), Value(r));
    SignedValue(q, (divisor.hi < 0) != (a.hi < 0));
    SignedValue(r, a.hi < 0);
  }

  /** `div` by every divisor but zero and the least; of the least dividend nothing is divided off. */
  method Div(a: Words, divisor: Words) returns (ok: bool, q: Words, r: Words)
    requires Fits(a) && Fits(divisor) && Value(divisor) != MIN
    ensures ok <==> Value(divisor) != 0
    ensures ok ==> Fits(q) && Fits(r)
    ensures ok && Value(a) != MIN ==> Divides(Value(a), Value(divisor), Value(q), Value(r))
    ensures ok && Value(a) == MIN ==> Value(q) == 0 && r == a
  {
    hide LeftAt, Negated, Magnitude, Signed, Less, Value, Fits;
    ok, q, r := divisor.hi != 0 || divisor.lo != 0, ZERO, ZERO;
    ZeroOrNot(divisor);
    ZeroValue();
    if !ok {
      return;
    }
    var ds, dd := Magnitude(divisor), Magnitude(a);
    MagnitudesCompare(a, divisor);
    if Less(dd, ds) {
      r := a;
      return;
    }
    ghost var n;
    q, r, n := DivideMagnitudes(dd, ds);
    SignedBack(a, divisor, q, r);
    q, r := Signed(q, (divisor.hi < 0) != (a.hi < 0)), Signed(r, a.hi < 0);
  }

  // ---------- which divisions end ----------

  lemma {:induction false} ShiftingEnds(dd: Words, ds: Words, m: nat, r: Words) returns (t: Loops, n: nat)
    requires Fits(dd) && Fits(ds) && 0 < Value(ds) <= Value(dd) && Aligning(dd, ds, m, r)
    ensures LeftAt(dd, ds, Shifting(Decremented(m), r), t, n)
    decreases m
  {
    hide Less, Pow2, TakeBit, Value, Fits, Negated, Halving;
    var s := Shifting(Decremented(m), r);
    if Less(r, ds) {
      ShiftStep(dd, ds, m, r);
      t, n := ShiftingEnds(dd, ds, m - 1, TakeBit(r, dd, m - 1));
    } else {
      HalvingStarts(dd, ds, m, r);
      t, n := SubtractingEnds(dd, ds, m, ZERO, r, 0);
    }
    n := n + 1;
  }

  lemma {:induction false} SubtractingEnds(dd: Words, ds: Words, b: nat, q: Words, r: Words, k: int)
    returns (t: Loops, n: nat)
    requires Fits(dd) && Fits(ds) && 0 < Value(ds) <= Value(dd) && Halving(dd, ds, b, q, r, k)
    ensures LeftAt(dd, ds, Subtracting(b, q, r), t, n)
    decreases b, Value(r)
  {
    hide Less, Pow2, Bit, WithBit, TakeBit, Added, Negated, ShiftedLeft, Value, Fits, Wrap, Dividing;
    if Less(r, ds) && b == 0 {
      t, n := Subtracting(b, q, r), 0;
    } else if Less(r, ds) {
      BitStep(dd, ds, b, q, r, k);
      t, n := SubtractingEnds(dd, ds, b - 1, q, TakeBit(r, dd, b - 1), 2 * k);
      n := n + 1;
    } else {
      SubtractStep(dd, ds, b, q, r, k);
      t, n := SubtractingEnds(dd, ds, b, WithBit(q, b), Added(r, Negated(ds)), k + 1);
      n := n + 1;
    }
  }

  /** With the least divisor: bit 128, of which there is none, and a remainder that goes to and fro. */
  predicate Stuck(ds: Words, s: Loops) {
    s == START || (s.Subtracting? && s.b == 128 && s.q == ZERO && (s.r == ZERO || s.r == ds))
  }

  lemma StuckOn(dd: Words, ds: Words, s: Loops)
    requires Fits(ds) && Value(ds) == MIN && Fits(s.r) && Stuck(ds, s)
    ensures Round(dd, ds, s).Some? && Stuck(ds, Round(dd, ds, s).value)
  {
    assert ds == Words(0, -W / 2);
    assert Negated(ds) == ds && Added(ZERO, ds) == ds && Added(ds, ds) == ZERO;
    assert !Less(ZERO, ds) && !Less(ds, ds);
  }

  lemma {:induction false} StuckForever(dd: Words, ds: Words, s: Loops, t: Loops, n: nat)
    requires Fits(ds) && Value(ds) == MIN && Fits(s.r) && Stuck(ds, s) && Reaches(dd, ds, s, t, n)
    ensures Fits(t.r) && Stuck(ds, t)
    decreases n
  {
    hide Round, Stuck, Fits, Value;
    if n > 0 {
      StuckOn(dd, ds, s);
      StuckForever(dd, ds, Round(dd, ds, s).value, t, n - 1);
    }
  }

  /** `div` comes to an end: there are no rounds to go because the divisor is larger, or finitely many. */
  ghost predicate DivisionEnds(a: Words, divisor: Words)
    requires Fits(a) && Fits(divisor)
  {
    MagnitudeFits(divisor);
    var dd, ds := Magnitude(a), Magnitude(divisor);
    Less(dd, ds) || exists t, n :: LeftAt(dd, ds, START, t, n)
  }

  lemma MagnitudeFits(w: Words)
    requires Fits(w)
    ensures Fits(Magnitude(w)) && (Value(w) == MIN ==> Magnitude(w) == w)
  {
    NegatedValue(w);
  }

  lemma NoneLess(a: Words, ds: Words)
    requires Fits(a) && Fits(ds) && Value(ds) == MIN
    ensures !Less(Magnitude(a), ds)
  {
    if Value(a) == MIN { MinIsItsMagnitude(a); } else { MagnitudeValue(a); }
    SignOfHigh(Magnitude(a));
  }

  /** Division by a number other than zero ends if and only if it is not the least number. */
  lemma EndsUnlessLeast(a: Words, divisor: Words)
    requires Fits(a) && Fits(divisor) && Value(divisor) != 0
    ensures DivisionEnds(a, divisor) <==> Value(divisor) != MIN
  {
    hide Less, LeftAt, Pow2, Negated;
    var dd, ds := Magnitude(a), Magnitude(divisor);
    MagnitudeFits(a);
    MagnitudeFits(divisor);
    if Value(divisor) == MIN {
      NoneLess(a, divisor);
      forall t, n ensures !LeftAt(dd, ds, START, t, n) { NotLeft(dd, ds, t, n); }
    } else {
      MagnitudesCompare(a, divisor);
      if !Less(dd, ds) {
        AligningStarts(dd, ds);
        var t, n := ShiftingEnds(dd, ds, 128, ZERO);
      }
    }
  }

  lemma NotLeft(dd: Words, ds: Words, t: Loops, n: nat)
    requires Fits(ds) && Value(ds) == MIN
    ensures !LeftAt(dd, ds, START, t, n)
  {
    hide Round, Stuck;
    assert Stuck(ds, START) by { StuckStarts(ds); }
    if LeftAt(dd, ds, START, t, n) {
      StuckForever(dd, ds, START, t, n);
      StuckOn(dd, ds, t);
    }
  }

  lemma StuckStarts(ds: Words)
    ensures Stuck(ds, START)
  {
  }

  // ---------- text ----------

  function DigitChar(c: nat): char
    requires c < 37
  {
    if c > 9 then ('A' as int - 10 + c) as char else ('0' as int + c) as char
  }

  function Digits(n: nat, radix: nat): string
    requires 2 <= radix <= 37
  {
    if n == 0 then "" else Digits(n / radix, radix) + [DigitChar(n % radix)]
  }

  /** The text of a number: its sign and the digits of its magnitude. */
  function Text(v: int, radix: nat): string {
    if v == 0 then "0"
    else if radix < 2 || radix > 37 then "(invalid radix)"
    else (if v < 0 then "-" else "") + Digits(Abs(v), radix)
  }

  /** What `toString` gives. The magnitude of the least number does not fit; a zero comes out instead. */
  function Printed(v: int, radix: nat): string {
    if v == MIN && 2 <= radix <= 37 then "-0" else Text(v, radix)
  }

  /** The value of a digit as `set` sees it; letters reach one too far. */
  function DigitOf(c: char, radix: nat): Option<nat> {
    var i := c as int;
    if '0' <= c <= '9' && i < '0' as int + radix then Some(i - '0' as int)
    else if 'a' <= c && i <= 'a' as int + radix - 10 then Some(i - 'a' as int + 10)
    else if 'A' <= c && i <= 'A' as int + radix - 10 then Some(i - 'A' as int + 10)
    else None
  }

  function Accumulate(s: string, radix: nat, acc: int): int
    decreases |s|
  {
    if s == "" || DigitOf(s[0], radix) == None then acc
    else Accumulate(s[1..], radix, acc * radix + DigitOf(s[0], radix).value)
  }

  /** The radix a text without its sign announces, and the length of the announcement. */
  function Prefix(t: string): (nat, nat) {
    if t == "" || t[0] != '0' then (10, 0) else if |t| > 1 && t[1] == 'x' then (16, 2) else (8, 1)
  }

  /** The number a text stands for. */
  function Parsed(s: string): int {
    var minus := s != "" && s[0] == '-';
    var t := if minus then s[1..] else s;
    var v := Accumulate(t[Prefix(t).1..], Prefix(t).0, 0);
    if minus then -v else v
  }

  function Power(b: nat, k: nat): nat { if k == 0 then 1 else b * Power(b, k - 1) }

  function Worth(c: char): int {
    if c <= '9' then c as int - '0' as int
    else if c < 'a' then c as int - 'A' as int + 10 else c as int - 'a' as int + 10
  }

  /** Digits and letters worth less than the radix; behind Z the radix 37 has one more. */
  predicate DigitsIn(s: string, radix: nat) {
    forall i :: 0 <= i < |s| ==>
      ('0' <= s[i] <= '9' || 'A' <= s[i] <= '[' || 'a' <= s[i] <= 'z') && Worth(s[i]) < radix
  }

  /** Every digit counts by its place. */
  function PlaceSum(s: string, radix: nat): int {
    if s == "" then 0 else Worth(s[0]) * Power(radix, |s| - 1) + PlaceSum(s[1..], radix)
  }

  lemma PlaceLeft(acc: int, radix: nat, w: int, p: nat, rest: int)
    ensures (acc * radix + w) * p + rest == acc * (radix * p) + (w * p + rest)
  {
    Distribute(acc, radix, w, p);
    Associate(acc, radix, p);
  }

  /** Reading goes through all the digits there are, adding them up. */
  lemma {:induction false} AccumulateSum(s: string, rest: string, radix: nat, acc: int)
    requires DigitsIn(s, radix)
    ensures Accumulate(s + rest, radix, acc) == Accumulate(rest, radix, acc * Power(radix, |s|) + PlaceSum(s, radix))
    decreases |s|
  {
    if s == "" {
      assert s + rest == rest;
    } else {
      assert (s + rest)[1..] == s[1..] + rest;
      AccumulateSum(s[1..], rest, radix, acc * radix + Worth(s[0]));
      PlaceLeft(acc, radix, Worth(s[0]), Power(radix, |s| - 1), PlaceSum(s[1..], radix));
    }
  }

  lemma {:induction false} PlaceSumLast(s: string, c: char, radix: nat)
    ensures PlaceSum(s + [c], radix) == PlaceSum(s, radix) * radix + Worth(c)
    decreases |s|
  {
    if s == "" {
      assert (s + [c])[1..] == "" && Power(radix, 0) == 1;
    } else {
      assert (s + [c])[1..] == s[1..] + [c];
      PlaceSumLast(s[1..], c, radix);
      var w, p, r := Worth(s[0]), Power(radix, |s| - 1), PlaceSum(s[1..], radix);
      Distribute(1, w * p, r, radix);
      Associate(w, p, radix);
    }
  }

  lemma OneDigit(d: nat, radix: nat)
    requires d < radix <= 37
    ensures DigitsIn([DigitChar(d)], radix) && Worth(DigitChar(d)) == d && (d > 0 ==> DigitChar(d) != '0')
  {
  }

  lemma QuotientAndRest(n: nat, radix: nat)
    requires 2 <= radix
    ensures n == n / radix * radix + n % radix && (n > 0 ==> n / radix < n)
  {
  }

  /** The digits of a number in any radix add up to it, and the first is not a zero. */
  lemma {:induction false} DigitsSum(n: nat, radix: nat)
    requires 2 <= radix <= 37
    ensures DigitsIn(Digits(n, radix), radix) && PlaceSum(Digits(n, radix), radix) == n
    ensures n == 0 <==> Digits(n, radix) == ""
    ensures n > 0 ==> Digits(n, radix)[0] != '0'
    decreases n
  {
    hide PlaceSum, Worth, DigitChar;
    OneDigit(n % radix, radix);
    QuotientAndRest(n, radix);
    if n == 0 {
      NothingCounts(radix);
    } else {
      var d := DigitChar(n % radix);
      DigitsSum(n / radix, radix);
      PlaceSumLast(Digits(n / radix, radix), d, radix);
      assert forall i :: 0 <= i < |[d]| ==> [d][i] == d;
    }
  }

  lemma {:induction false} NothingCounts(radix: nat)
    ensures PlaceSum("", radix) == 0
  {
  }

  /** Reads all of a numeral whose radix is known. */
  lemma {:induction false} NumeralRead(s: string, radix: nat)
    requires DigitsIn(s, radix)
    ensures Accumulate(s, radix, 0) == PlaceSum(s, radix)
  {
    hide DigitsIn, PlaceSum, Power;
    AccumulateSum(s, "", radix, 0);
    assert s + "" == s;
  }

  lemma MinusRead(t: string)
    requires t == "" || t[0] != '-'
    ensures Parsed(['-'] + t) == -Parsed(t)
  {
    hide Accumulate, Prefix;
    assert (['-'] + t)[1..] == t;
  }

  /** Numerals of the three kinds are read as what their digits add up to. */
  lemma {:induction false} NumeralsAreRead(s: string)
    ensures DigitsIn(s, 16) ==> Parsed("0x" + s) == PlaceSum(s, 16) == -Parsed(['-'] + ("0x" + s))
    ensures DigitsIn(s, 8) ==> Parsed("0" + s) == PlaceSum(s, 8) == -Parsed(['-'] + ("0" + s))
    ensures DigitsIn(s, 10) && s != "" && s[0] != '0' ==> Parsed(s) == PlaceSum(s, 10) == -Parsed(['-'] + s)
  {
    hide PlaceSum, Accumulate;
    assert ("0x" + s)[2..] == s && ("0" + s)[1..] == s && s[0..] == s;
    MinusRead("0x" + s);
    MinusRead("0" + s);
    if DigitsIn(s, 16) { NumeralRead(s, 16); }
    if DigitsIn(s, 8) { NumeralRead(s, 8); }
    if DigitsIn(s, 10) {
      NumeralRead(s, 10);
      MinusRead(s);
    }
  }

  /** One letter more than the radix has counts as a digit. */
  lemma LettersReachTooFar()
    ensures Parsed("0xg") == 16 && Parsed("0xG") == 16 && Parsed("1a") == 20
  {
    assert "0xg"[2..] == "g" && "0xG"[2..] == "G" && "g"[1..] == "G"[1..] == "";
    assert "1a"[0..] == "1a" && "1a"[1..] == "a" && "a"[1..] == "";
  }

  /** What the digits of a number in radix 16 or 8 say behind their prefix is the number. */
  lemma {:induction false} DigitsAreReadBack(n: nat)
    ensures Parsed("0x" + Digits(n, 16)) == n && Parsed("0" + Digits(n, 8)) == n
  {
    DigitsSum(n, 16);
    DigitsSum(n, 8);
    NumeralsAreRead(Digits(n, 16));
    NumeralsAreRead(Digits(n, 8));
  }

  /** Reading back the decimal text of a number gives the number. */
  lemma TextRoundTrip(v: int)
    ensures Parsed(Text(v, 10)) == v
  {
    if v == 0 {
      assert Prefix("0") == (8, 1) && "0"[1..] == "";
    } else {
      var d := Digits(Abs(v), 10);
      DigitsSum(Abs(v), 10);
      NumeralsAreRead(d);
      assert "" + d == d && ['-'] + d == "-" + d;
    }
  }

  lemma MinIsReadAsZero()
    ensures Parsed("-0") == 0
  {
    assert "-0"[1..] == "0" && Prefix("0") == (8, 1) && "0"[1..] == "";
  }

  /** So printing a number and reading the text back into 128 bits gives the number if and only if
      it is not the least one. */
  lemma PrintedIsReadBack(w: Words)
    requires Fits(w)
    ensures Wrap(Parsed(Printed(Value(w), 10))) == Value(w) <==> Value(w) != MIN
  {
    if Value(w) == MIN {
      MinIsReadAsZero();
      WrapSmall(0);
    } else {
      TextRoundTrip(Value(w));
      ValueRange(w);
    }
  }

  /** What is lost by wrapping on the way is lost in the end only. */
  lemma {:induction false} AccumulateWraps(s: string, radix: nat, x: int, k: int)
    ensures Wrap(Accumulate(s, radix, x + k * M)) == Wrap(Accumulate(s, radix, x))
    decreases |s|
  {
    if s == "" || DigitOf(s[0], radix) == None {
      WrapShift(x, k);
    } else {
      var n := DigitOf(s[0], radix).value;
      assert (x + k * M) * radix + n == (x * radix + n) + (k * radix) * M;
      AccumulateWraps(s[1..], radix, x * radix + n, k * radix);
    }
  }

  lemma Unwrapped(x: int) returns (k: int)
    ensures x == Wrap(x) + k * M
  {
    k := (x - Wrap(x)) / M;
  }

  lemma WrapOfWrap(x: int, f: int, c: int)
    ensures Wrap(Wrap(x) * f + c) == Wrap(x * f + c)
  {
    var k := Unwrapped(x);
    assert x * f + c == (Wrap(x) * f + c) + (k * f) * M by { Distribute(k, M, Wrap(x), f); }
    WrapShift(Wrap(x) * f + c, k * f);
  }

  lemma RadixFits(radix: nat)
    requires radix <= 37
    ensures Fits(Words(radix, 0)) && Value(Words(radix, 0)) == radix
  {
  }

  lemma AtMostHalf(a: int, d: int, q: int, r: int)
    requires a == q * d + r && 0 <= r < d && d >= 2 && a > 0
    ensures 0 <= q && 2 * q <= a
  {
    if q < 0 { TimesFar(q, d); }
    assert q * d == q * (d - 1) + q;
    TimesUp(q, d - 1);
  }

  /** One step of printing: the quotient is half at most, and the remainder a digit. */
  lemma QuotientHalves(a: int, radix: nat, q: int, r: int, n: nat)
    requires Divides(a, radix, q, r) && 0 < a < Pow2(n) && radix >= 2
    ensures 0 <= r < radix && q == a / radix && r == a % radix && n > 0 && 0 <= q < Pow2(n - 1)
  {
    hide Pow2;
    Pow2Small();
    Pow2Step(n);
    DivUnique(a, q, r, radix);
    AtMostHalf(a, radix, q, r);
  }

  /** Printing v has come as far as ii, with the digits s behind it and room for i more. */
  ghost predicate Printing(v: int, radix: nat, ii: Words, i: nat, s: string)
    requires 2 <= radix <= 37
  {
    128 <= i <= 255 && Fits(ii) &&
    if v == MIN then (Value(ii) == MIN && i == 255 && s == "") || (Value(ii) == 0 && s == "0")
    else 0 <= Value(ii) < Pow2(i - 128) && Digits(Abs(v), radix) == Digits(Value(ii), radix) + s
  }

  lemma PrintingFits(v: int, radix: nat, ii: Words, i: nat, s: string)
    requires 2 <= radix <= 37 && Printing(v, radix, ii, i, s)
    ensures Fits(ii) && 128 <= i <= 255 && (v != MIN ==> Value(ii) != MIN)
    ensures v == MIN && Value(ii) != 0 ==> Value(ii) == MIN && i == 255
  {
  }

  lemma PrintingStarts(w: Words, radix: nat)
    requires Fits(w) && Value(w) != 0 && 2 <= radix <= 37
    ensures Printing(Value(w), radix, Magnitude(w), 255, "")
  {
    hide Pow2, Digits, Fits, Value, Magnitude;
    Pow64();
    if Value(w) == MIN {
      MinIsItsMagnitude(w);
    } else {
      ValueRange(w);
      MagnitudeValue(w);
      assert Digits(Abs(Value(w)), radix) + "" == Digits(Abs(Value(w)), radix);
    }
  }

  lemma PrintingEnds(v: int, radix: nat, ii: Words, i: nat, s: string)
    requires 2 <= radix <= 37 && v != 0 && Printing(v, radix, ii, i, s) && (Value(ii) == 0 || i == 0)
    ensures (if v < 0 then "-" else "") + s == Printed(v, radix)
  {
    hide Pow2, Fits, Value;
    NoDigits(radix, s);
  }

  /** The digits come out of repeated division, last first; 128 of them are always enough. */
  method ToString(w: Words, radix: nat) returns (s: string)
    requires Fits(w)
    ensures s == Printed(Value(w), radix)
  {
    hide Pow2, Magnitude, Wrap, Value, Fits, Digits, Printing;
    SignOfHigh(w);
    ZeroOrNot(w);
    if w.hi == 0 && w.lo == 0 {
      return "0";
    }
    if radix < 2 || radix > 37 {
      return "(invalid radix)";
    }
    var ii, i := Magnitude(w), 255;
    s := "";
    PrintingStarts(w, radix);
    ZeroOrNot(ii) by { PrintingFits(Value(w), radix, ii, i, s); }
    while (ii.hi != 0 || ii.lo != 0) && i != 0
      invariant Printing(Value(w), radix, ii, i, s) && (ii == ZERO <==> Value(ii) == 0)
      decreases i
    {
      ii, s := NextDigit(ii, radix, Value(w), i, s);
      i := i - 1;
      PrintingFits(Value(w), radix, ii, i, s);
      ZeroOrNot(ii);
    }
    PrintingEnds(Value(w), radix, ii, i, s);
    if w.hi < 0 {
      s := "-" + s;
    }
  }

  lemma ZeroOrNot(w: Words)
    requires Fits(w)
    ensures w == ZERO <==> Value(w) == 0
  {
  }

  lemma {:induction false} NoDigits(radix: nat, s: string)
    requires 2 <= radix <= 37
    ensures Digits(0, radix) + s == s
  {
  }

  lemma {:induction false} DigitsStep(n: nat, radix: nat, s: string)
    requires 2 <= radix <= 37 && n > 0
    ensures Digits(n, radix) + s == Digits(n / radix, radix) + ([DigitChar(n % radix)] + s)
  {
  }

  /** One digit of the least number: its quotient and the low word of its remainder are zero. */
  lemma MinPrinted(radix: nat, ii: Words, i: nat, s: string, q: Words, r: Words)
    requires 2 <= radix <= 37 && Printing(MIN, radix, ii, i, s) && Value(ii) == MIN && i > 128
    requires Fits(q) && Value(q) == 0 && r == ii
    ensures r.lo == 0 && Printing(MIN, radix, q, i - 1, ['0'] + s)
  {
    hide Pow2, Digits;
    assert s == "" && ['0'] + s == "0";
  }

  /** One digit of any other number. */
  lemma DigitPrinted(v: int, radix: nat, ii: Words, i: nat, s: string, q: Words, r: Words)
    requires v != MIN && 2 <= radix <= 37 && Printing(v, radix, ii, i, s) && Value(ii) != 0
    requires Fits(q) && Fits(r) && Divides(Value(ii), radix, Value(q), Value(r))
    ensures i > 128 && 0 <= r.lo < radix && Printing(v, radix, q, i - 1, [DigitChar(r.lo)] + s)
  {
    hide Pow2, Digits, Fits, Value, Divides;
    QuotientHalves(Value(ii), radix, Value(q), Value(r), i - 128);
    SmallWord(r);
    DigitsStep(Value(ii), radix, s);
  }

  /** The remainder by the radix is the next digit, and the quotient remains to be printed. */
  method NextDigit(ii: Words, radix: nat, ghost v: int, ghost i: nat, s: string) returns (q: Words, s': string)
    requires 2 <= radix <= 37 && Printing(v, radix, ii, i, s) && Value(ii) != 0
    ensures i > 128 && Printing(v, radix, q, i - 1, s')
  {
    hide Pow2, Digits, Divides, Printing, Value, Fits;
    RadixFits(radix);
    PrintingFits(v, radix, ii, i, s);
    var ok, r;
    ok, q, r := Div(ii, Words(radix, 0));
    if v == MIN {
      MinPrinted(radix, ii, i, s, q, r);
    } else {
      DigitPrinted(v, radix, ii, i, s, q, r);
    }
    s' := [DigitChar(r.lo % 0x1_0000_0000)] + s;
  }

  lemma SmallWord(w: Words)
    requires Fits(w) && 0 <= Value(w) < W
    ensures w.lo == Value(w)
  {
  }

  // ---------- the class ----------

  lemma BitsDone(a: int, b: int, t: int)
    requires t == b / M
    ensures Wrap(a * (b - t * M)) == Wrap(a * b)
  {
    assert a * (b - t * M) == a * b + (-(a * t)) * M;
    WrapShift(a * b, -(a * t));
  }

  lemma BitsLeft(a: int, b: int, t: int, p: int)
    ensures a * (b - (t / 2) * (2 * p)) == a * (b - t * p) + (t % 2) * (a * p)
  {
    var u, d := t / 2, t % 2;
    assert t == u * 2 + d;
    Distribute(u, 2, d, p);
    Associate(a, d, p);
    assert b - u * (2 * p) == (b - t * p) + d * p;
    Distribute(1, b - t * p, d * p, a);
    Associate(d, p, a);
    Associate(d, a, p);
  }

  /** Adding a shifted by i takes in bit i of b; the rest of b is t. */
  lemma TakeInBit(a: int, b: int, i: nat, t: int, acc: int)
    requires t == b / Pow2(i) && acc == Wrap(a * (b - t * Pow2(i)))
    ensures t / 2 == b / Pow2(i + 1)
    ensures t % 2 == 1 ==> Wrap(acc + Wrap(a * Pow2(i))) == Wrap(a * (b - (t / 2) * Pow2(i + 1)))
    ensures t % 2 == 0 ==> acc == Wrap(a * (b - (t / 2) * Pow2(i + 1)))
  {
    hide Pow2, Wrap;
    Halve(b, i);
    Pow2Step(i + 1);
    BitsLeft(a, b, t, Pow2(i));
    var x, y := a * (b - t * Pow2(i)), a * Pow2(i);
    WrapOfWrap(x, 1, Wrap(y));
    WrapOfWrap(y, 1, x);
  }

  class Int128 {
    var lo: int
    var hi: int

    ghost predicate Valid()
      reads this
    {
      Fits(Words(lo, hi))
    }

    ghost function V(): int
      reads this
    {
      Value(Words(lo, hi))
    }

    /** An unsigned number. */
    constructor (a: nat)
      requires a < W
      ensures Valid() && V() == a
    {
      lo, hi := a, 0;
    }

    method Assign(w: Words)
      modifies this
      ensures Words(lo, hi) == w
    {
      lo, hi := w.lo, w.hi;
    }

    /** `+=`, which b may be the same number as. */
    method AddAssign(b: Int128)
      requires Valid() && b.Valid()
      modifies this
      ensures Valid() && V() == Wrap(old(V()) + old(b.V()))
    {
      AddedValue(Words(lo, hi), Words(b.lo, b.hi));
      var oldLo := lo;
      lo := U64(lo + b.lo);
      hi := S64(hi + b.hi);
      if lo < oldLo {
        hi := S64(hi + 1);
      }
    }

    /** `-=`. */
    method SubAssign(b: Int128)
      requires Valid() && b.Valid()
      modifies this
      ensures Valid() && V() == Wrap(old(V()) - old(b.V()))
    {
      hide Value, Fits, Negated, Wrap;
      NegatedValue(Words(b.lo, b.hi));
      var minus := new Int128(0);
      minus.Assign(Negated(Words(b.lo, b.hi)));
      ghost var x, y := V(), b.V();
      AddAssign(minus);
      WrapOfWrap(-y, 1, x);
    }

    /** `<<=`. */
    method ShlAssign(n: nat)
      requires Valid()
      modifies this
      ensures Valid() && V() == Wrap(old(V()) * Pow2(n))
    {
      ShiftedLeftValue(Words(lo, hi), n);
      Assign(ShiftedLeft(Words(lo, hi), n));
    }

    /** `*=`, bit by bit. */
    method MulAssign(b: Int128)
      requires Valid() && b.Valid()
      modifies this
      ensures Valid() && V() == Wrap(old(V()) * old(b.V()))
    {
      ghost var x, y := V(), b.V();
      if b.hi == 0 && b.lo == 0 {
        lo, hi := 0, 0;
        return;
      }
      if b.hi == 0 && b.lo == 1 {
        ValueRange(Words(lo, hi));
        return;
      }
      var a, t := Words(lo, hi), Words(b.lo, b.hi);
      lo, hi := 0, 0;
      MulBits(a, t);
    }

    /** Add a shifted by i, if bit i is set; go on to the next bit. */
    method MulBit(a: Words, ghost y: int, t: Words, i: nat) returns (t': Words)
      requires Valid() && Fits(a) && Fits(t) && Value(t) == y / Pow2(i) &&
               V() == Wrap(Value(a) * (y - Value(t) * Pow2(i)))
      modifies this
      ensures Valid() && Fits(t') && Value(t') == y / Pow2(i + 1) &&
              V() == Wrap(Value(a) * (y - Value(t') * Pow2(i + 1)))
    {
      hide Pow2, ShiftedLeft, ShiftedRight, Added, Value, Fits, Wrap;
      TakeInBit(Value(a), y, i, Value(t), V());
      LowParity(t);
      Pow2Small();
      ShiftedRightValue(t, 1);
      ShiftedLeftValue(a, i);
      AddedValue(Words(lo, hi), ShiftedLeft(a, i));
      if t.lo % 2 == 1 {
        Assign(Added(Words(lo, hi), ShiftedLeft(a, i)));
      }
      t' := ShiftedRight(t, 1);
    }

    method MulBits(a: Words, b: Words)
      requires Fits(a) && Fits(b) && V() == 0 && Valid()
      modifies this
      ensures Valid() && V() == Wrap(Value(a) * Value(b))
    {
      hide Pow2, ShiftedLeft, ShiftedRight, Added, Value, Fits, Wrap;
      var t := b;
      ghost var x, y := Value(a), Value(b);
      Pow2Small();
      Pow64();
      assert x * (y - y * 1) == 0;
      WrapSmall(0);
      for i := 0 to 128
        invariant Valid() && Fits(t) && Value(t) == y / Pow2(i) && V() == Wrap(x * (y - Value(t) * Pow2(i)))
      {
        t := MulBit(a, y, t, i);
      }
      BitsDone(x, y, Value(t));
    }

    /** `div`: the remainder may be this number or the divisor. */
    method DivInto(divisor: Int128, remainder: Int128) returns (ok: bool, q: Words)
      requires Valid() && divisor.Valid() && divisor.V() != MIN
      modifies remainder
      ensures ok <==> old(divisor.V()) != 0
      ensures ok ==> Fits(q) && remainder.Valid()
      ensures ok && old(V()) != MIN ==> Divides(old(V()), old(divisor.V()), Value(q), remainder.V())
      ensures ok && old(V()) == MIN ==> Value(q) == 0 && remainder.V() == MIN
    {
      var r;
      ok, q, r := Div(Words(lo, hi), Words(divisor.lo, divisor.hi));
      if ok {
        remainder.Assign(r);
      }
    }

    /** `/=`, which b may be the same number as. */
    method DivAssign(b: Int128) returns (ok: bool, ghost r: int)
      requires Valid() && b.Valid() && b.V() != MIN
      modifies this
      ensures ok <==> old(b.V()) != 0
      ensures ok ==> Valid() && if old(V()) == MIN then V() == 0 else Divides(old(V()), old(b.V()), V(), r)
    {
      var dummy := new Int128(0);
      var q;
      ok, q := DivInto(b, dummy);
      r := dummy.V();
      if ok {
        Assign(q);
      }
    }

    /** `%=`: the remainder goes into the dividend itself. */
    method ModAssign(b: Int128) returns (ok: bool, ghost quotient: int)
      requires Valid() && b.Valid() && b.V() != MIN
      modifies this
      ensures ok <==> old(b.V()) != 0
      ensures ok ==> Valid() && if old(V()) == MIN then V() == MIN else Divides(old(V()), old(b.V()), quotient, V())
    {
      var q;
      ok, q := DivInto(b, this);
      quotient := Value(q);
    }

    /** Read a number: sign, radix and digits, wrapping where there are too many. */
    method Set(sz: string)
      modifies this
      ensures Valid() && V() == Wrap(Parsed(sz))
    {
      lo, hi := 0, 0;
      var s, radix, minus := sz, 10, false;
      if s != "" && s[0] == '-' {
        s, minus := s[1..], true;
      }
      ghost var t := s;
      if s != "" && s[0] == '0' {
        radix, s := 8, s[1..];
        if s != "" && s[0] == 'x' {
          radix, s := 16, s[1..];
        }
      }
      assert (radix, s) == (Prefix(t).0, t[Prefix(t).1..]);
      ghost var v := Accumulate(s, radix, 0);
      assert Parsed(sz) == if minus then -v else v;
      hide Parsed;
      SetDigits(s, radix);
      if minus {
        var zero := new Int128(0);
        ghost var was := V();
        zero.SubAssign(this);
        hide Wrap, Value;
        Assign(Words(zero.lo, zero.hi));
        NegatedWraps(v);
      }
    }

    method SetDigits(sz: string, radix: nat)
      requires Valid() && V() == 0 && radix <= 16
      modifies this
      ensures Valid() && V() == Wrap(Accumulate(sz, radix, 0))
    {
      hide Value, Fits, Wrap;
      var s := sz;
      WrapSmall(0);
      ghost var x := 0;
      while s != "" && DigitOf(s[0], radix) != None
        invariant Valid() && V() == Wrap(x) && Accumulate(s, radix, x) == Accumulate(sz, radix, 0)
        decreases |s|
      {
        var n := DigitOf(s[0], radix).value;
        MulAdd(radix, n);
        WrapOfWrap(x, radix, n);
        x := x * radix + n;
        s := s[1..];
      }
    }

    /** One more digit: times the radix, plus n. */
    method MulAdd(radix: nat, n: nat)
      requires Valid() && radix < W && n < W
      modifies this
      ensures Valid() && V() == Wrap(old(V()) * radix + n)
    {
      hide Value, Fits, Wrap;
      var f := new Int128(radix);
      var c := new Int128(n);
      ghost var x := V();
      MulAssign(f);
      AddAssign(c);
      WrapOfWrap(x * radix, 1, n);
    }
  }

  lemma NegatedWraps(v: int)
    ensures Wrap(0 - Wrap(v)) == Wrap(-v)
  {
    var k := Unwrapped(v);
    WrapShift(-Wrap(v), -k);
  }
}
