/** Currency values (anonpay/currency/value.go): a nine-bit floating format with five
    significant bits, exact encoding and stochastic rounding. float64 inputs are reals. */
module Currency {
  import opened Bytes

  datatype Error = Negative | Overflow | NoExactRepresentation | NotAnAmount | TooShort | TooManyBitsSet

  datatype Result<+T> = Ok(value: T) | Err(error: Error)

  /** shift marks a special value. */
  datatype Value = Value(shift: bool, value: nat)

  // ---------- Shifts, bit lengths, trailing zeros ----------

  function Shl(n: nat, k: nat): (r: nat)
  {
    if k == 0 then n else 2 * Shl(n, k - 1)
  }

  function Shr(n: nat, k: nat): (r: nat)
  {
    if k == 0 then n else Shr(n / 2, k - 1)
  }

  /** math/bits.Len64 */
  function BitLen(n: nat): (r: nat)
  {
    if n == 0 then 0 else 1 + BitLen(n / 2)
  }

  /** math/bits.TrailingZeros64 */
  function TrailingZeros(n: nat): (r: nat)
    requires n > 0
  {
    if n % 2 == 1 then 0 else 1 + TrailingZeros(n / 2)
  }

  lemma {:induction false} ShlMonotone(a: nat, b: nat, k: nat)
    requires a < b
    ensures Shl(a, k) < Shl(b, k)
  {
    if k > 0 { ShlMonotone(a, b, k - 1); }
  }

  lemma {:induction false} ShlLater(n: nat, j: nat, k: nat)
    requires j <= k
    ensures Shl(n, j) <= Shl(n, k)
  {
    if j < k { ShlLater(n, j, k - 1); }
  }

  lemma {:induction false} ShlTwice(n: nat, j: nat, k: nat)
    ensures Shl(Shl(n, j), k) == Shl(n, j + k)
  {
    if k > 0 { ShlTwice(n, j, k - 1); }
  }

  lemma {:induction false} ShrTruncates(n: nat, k: nat)
    ensures Shl(Shr(n, k), k) <= n < Shl(Shr(n, k) + 1, k)
    decreases k
  {
    if k > 0 { ShrTruncates(n / 2, k - 1); }
  }

  /** Shifting right and back loses nothing exactly when only zeros are shifted out. */
  lemma {:induction false} ShrExact(n: nat, k: nat)
    requires n > 0
    ensures Shl(Shr(n, k), k) == n <==> k <= TrailingZeros(n)
    decreases k
  {
    if k > 0 {
      ShrTruncates(n / 2, k - 1);
      if n % 2 == 0 { ShrExact(n / 2, k - 1); }
    }
  }

  lemma {:induction false} BitLenAtLeast(n: nat, k: nat)
    ensures BitLen(n) > k <==> n >= Shl(1, k)
    decreases k
  {
    if k > 0 { BitLenAtLeast(n / 2, k - 1); }
  }

  /** The top five bits of an amount. */
  lemma {:induction false} TopFiveBits(n: nat)
    requires n >= 16
    ensures BitLen(n) >= 5 && 16 <= Shr(n, BitLen(n) - 5) < 32
  {
    if n < 32 {
      BitLenAtLeast(n, 4);
      BitLenAtLeast(n, 5);
    } else {
      TopFiveBits(n / 2);
    }
  }

  /** Five bits shifted left have that many bits more, and come back. */
  lemma {:induction false} ShlFiveBits(m: nat, e: nat)
    requires 16 <= m < 32
    ensures BitLen(Shl(m, e)) == e + 5 && Shr(Shl(m, e), e) == m && Shl(m, e) >= 16
  {
    if e == 0 {
      BitLenAtLeast(m, 4);
      BitLenAtLeast(m, 5);
    } else {
      ShlFiveBits(m, e - 1);
    }
  }

  // ---------- The format ----------

  const MAX_AMOUNT: nat := 33_285_996_544

  /** The largest amount is 31 followed by 30 zeros. */
  lemma MaxAmountIsTop()
    ensures MAX_AMOUNT == Shl(0x1F, 31 + 3 - 4)
  {
    ShlTwice(31, 10, 20);
    assert Shl(31, 10) == 31744;
    ShlTwice(31744, 10, 10);
    assert Shl(31744, 10) == 32505856;
    assert Shl(32505856, 10) == 33285996544;
  }

  function CreateExactUnsafe(amount: nat): (r: Result<Value>)
  {
    if amount < 16 then Ok(Value(false, amount))
    else
      TopFiveBits(amount);
      var bitsNeeded := BitLen(amount);
      var zeros := TrailingZeros(amount);
      if bitsNeeded - zeros > 5 then Err(NoExactRepresentation)
      else
        var mantissa := Shr(amount, bitsNeeded - 5) % 16;
        var biasedExponent := bitsNeeded - 4;
        if biasedExponent > 31 then Err(Overflow)
        else Ok(Value(false, biasedExponent * 16 + mantissa))
  }

  function Exact(signedAmount: int): (r: Result<Value>)
  {
    if signedAmount < 0 then Err(Negative)
    else if signedAmount > MAX_AMOUNT then Err(Overflow)
    else CreateExactUnsafe(signedAmount)
  }

  function Amount(c: Value): (r: Result<nat>)
  {
    if c.shift then Err(NotAnAmount)
    else if c.value / 16 == 0 then Ok(c.value)
    else Ok(Shl(c.value % 16 + 16, c.value / 16 - 1))
  }

  /** n is m, five bits wide, followed by e zeros. */
  ghost predicate InBinade(n: int, m: nat, e: nat)
  {
    16 <= m < 32 && e <= 30 && n == Shl(m, e)
  }

  /** The amounts the format is for. */
  ghost predicate Representable(n: int)
  {
    0 <= n < 16 || exists m: nat, e: nat :: InBinade(n, m, e)
  }

  lemma RepresentableAtMostMax(n: int)
    requires Representable(n)
    ensures 0 <= n <= MAX_AMOUNT
  {
    if n >= 16 {
      var m: nat, e: nat :| InBinade(n, m, e);
      if m < 31 { ShlMonotone(m, 31, e); }
      ShlLater(31, e, 30);
      MaxAmountIsTop();
    }
  }

  lemma BitLenOfTop(n: nat, e: nat)
    requires n <= Shl(31, e)
    ensures BitLen(n) <= e + 5
  {
    BitLenAtLeast(n, e + 5);
    ShlTwice(1, 5, e);
    assert Shl(1, 5) == 32;
    ShlMonotone(31, 32, e);
  }

  lemma BitLenOfMax(n: nat)
    requires n <= MAX_AMOUNT
    ensures BitLen(n) <= 35
  {
    MaxAmountIsTop();
    BitLenOfTop(n, 30);
  }

  /** From 16 on, exact encoding refuses what is not five bits and zeros. */
  lemma AcceptedIsBinade(n: nat) returns (m: nat, e: nat)
    requires 16 <= n <= MAX_AMOUNT
    ensures CreateExactUnsafe(n) == Err(NoExactRepresentation) || InBinade(n, m, e)
  {
    TopFiveBits(n);
    BitLenOfMax(n);
    e := BitLen(n) - 5;
    m := Shr(n, e);
    ShrExact(n, e);
  }

  lemma BinadeAccepted(n: nat, m: nat, e: nat)
    requires InBinade(n, m, e)
    ensures CreateExactUnsafe(n) == Ok(Value(false, (e + 1) * 16 + m - 16))
    ensures Amount(Value(false, (e + 1) * 16 + m - 16)) == Ok(n)
  {
    ShlFiveBits(m, e);
    ShrExact(n, e);
  }

  /** Exact accepts exactly the representable amounts, and Amount gives them back. */
  lemma ExactAcceptsRepresentable(n: int)
    ensures Exact(n).Ok? <==> Representable(n)
    ensures n < 0 <==> Exact(n) == Err(Negative)
    ensures n > MAX_AMOUNT <==> Exact(n) == Err(Overflow)
    ensures Exact(n).Ok? ==>
              !Exact(n).value.shift && Exact(n).value.value < 512 && Amount(Exact(n).value) == Ok(n)
  {
    if Representable(n) { RepresentableAtMostMax(n); }
    if 16 <= n <= MAX_AMOUNT {
      var m, e := AcceptedIsBinade(n);
      if m': nat, e': nat :| InBinade(n, m', e') { BinadeAccepted(n, m', e'); }
    }
  }

  /** Every canonical value is the encoding of its amount; special values have none. */
  lemma AmountInvertsExact(c: Value)
    requires c.value < 512
    ensures c.shift <==> Amount(c) == Err(NotAnAmount)
    ensures !c.shift ==> Amount(c).Ok? && Exact(Amount(c).value) == Ok(c)
  {
    if !c.shift && c.value >= 16 {
      var n, m, e := Amount(c).value, c.value % 16 + 16, c.value / 16 - 1;
      assert InBinade(n, m, e);
      RepresentableAtMostMax(n);
      BinadeAccepted(n, m, e);
    }
  }

  lemma BinadesApart(l: nat, j: nat, m: nat, k: nat)
    requires l < 32 && 16 <= m && j < k
    ensures Shl(l, j) < Shl(m, k)
  {
    ShlMonotone(l, 32, j);
    ShlTwice(16, 1, j);
    ShlLater(16, j + 1, k);
    if m > 16 { ShlMonotone(16, m, k); }
  }

  lemma AtLeastSixteen(m: nat, e: nat)
    requires 16 <= m
    ensures Shl(m, e) >= 16
  {
    ShlLater(m, 0, e);
  }

  /** Larger values are larger amounts, so values compare as their amounts do. */
  lemma AmountMonotone(c: Value, d: Value)
    requires !c.shift && !d.shift && c.value < d.value
    ensures Amount(c).value < Amount(d).value
  {
    var j, k := c.value / 16, d.value / 16;
    var l, m := c.value % 16 + 16, d.value % 16 + 16;
    if 0 == j < k {
      AtLeastSixteen(m, k - 1);
    } else if 0 < j < k {
      BinadesApart(l, j - 1, m, k - 1);
    } else if 0 < j {
      ShlMonotone(l, m, j - 1);
    }
  }

  // ---------- Stochastic rounding ----------

  function Ceil(x: real): (n: int)
    ensures (n - 1) as real < x <= n as real
  {
    if x == x.Floor as real then x.Floor else x.Floor + 1
  }

  /** An amount of at least 32 cut to five significant bits, and the next such amount. */
  function Bounds(amount: nat): (r: (nat, nat))
    requires amount >= 32
    ensures r.0 <= amount < r.1
  {
    TopFiveBits(amount);
    var shiftToClear := BitLen(amount) - 5;
    ShrTruncates(amount, shiftToClear);
    var truncated := Shr(amount, shiftToClear);
    (Shl(truncated, shiftToClear), Shl(truncated + 1, shiftToClear))
  }

  function LowerProbability(x: real, lower: int, upper: int): (p: real)
    requires lower < upper
  {
    (upper as real - x) / (upper as real - lower as real)
  }

  function Rounded(x: real, factor: real): (r: Result<Value>)
  {
    if x < 0.0 then Err(Negative)
    else
      var floor, ceil := x.Floor, Ceil(x);
      if ceil > MAX_AMOUNT then Err(Overflow)
      else if ceil <= 32 then
        if floor == ceil then CreateExactUnsafe(ceil)
        else CreateExactUnsafe(if factor > LowerProbability(x, floor, ceil) then ceil else floor)
      else
        var (lower, upper) := Bounds(floor);
        if floor == ceil && lower == floor then CreateExactUnsafe(floor)
        else CreateExactUnsafe(if factor > LowerProbability(x, lower, upper) then upper else lower)
  }

  /** l is the largest representable amount not above x. */
  ghost predicate IsFloor(l: int, x: real)
  {
    && Representable(l) && l as real <= x
    && forall r: int | Representable(r) && r as real <= x :: r <= l
  }

  /** u is the least representable amount not below x. */
  ghost predicate IsCeil(u: int, x: real)
  {
    && Representable(u) && x <= u as real
    && forall r: int | Representable(r) && x <= r as real :: u <= r
  }

  lemma SmallIsRepresentable(n: nat)
    requires n <= 32
    ensures Representable(n)
  {
    if 16 <= n < 32 { assert InBinade(n, n, 0); }
    if n == 32 { assert InBinade(n, 16, 1); }
  }

  /** Nothing five bits wide lies strictly between neighbours that are. */
  lemma NoneBetween(m: nat, e: nat, t: nat, s: nat)
    requires m < 32 && 16 <= t
    ensures Shl(m, e) <= Shl(t, s) || Shl(m, e) >= Shl(t + 1, s)
  {
    if e < s {
      BinadesApart(m, e, t, s);
    } else {
      ShlTwice(m, e - s, s);
      var q := Shl(m, e - s);
      if q < t { ShlMonotone(q, t, s); }
      if q > t + 1 { ShlMonotone(t + 1, q, s); }
    }
  }

  lemma NoRepresentableBetween(r: int, t: nat, s: nat)
    requires Representable(r) && 16 <= t
    ensures r <= Shl(t, s) || r >= Shl(t + 1, s)
  {
    if r < 16 {
      ShlLater(t, 0, s);
    } else {
      var m: nat, e: nat :| InBinade(r, m, e);
      NoneBetween(m, e, t, s);
    }
  }

  /** Nothing representable lies strictly between the bounds. */
  lemma BoundsAreAdjacent(amount: nat, r: int)
    requires amount >= 32 && Representable(r)
    ensures r <= Bounds(amount).0 || r >= Bounds(amount).1
  {
    TopFiveBits(amount);
    var s := BitLen(amount) - 5;
    NoRepresentableBetween(r, Shr(amount, s), s);
  }

  lemma BoundsAreRepresentable(amount: nat)
    requires 32 <= amount <= MAX_AMOUNT
    ensures Representable(Bounds(amount).0)
    ensures Bounds(amount).0 < MAX_AMOUNT ==> Representable(Bounds(amount).1)
  {
    TopFiveBits(amount);
    BitLenOfMax(amount);
    var s := BitLen(amount) - 5;
    var t := Shr(amount, s);
    assert InBinade(Bounds(amount).0, t, s);
    if t < 31 {
      assert InBinade(Bounds(amount).1, t + 1, s);
    } else {
      ShlTwice(16, 1, s);
      MaxAmountIsTop();
      if s < 30 { assert InBinade(Bounds(amount).1, 16, s + 1); }
    }
  }

  lemma Encodes(n: nat)
    requires Representable(n)
    ensures CreateExactUnsafe(n).Ok? && Amount(CreateExactUnsafe(n).value) == Ok(n)
  {
    ExactAcceptsRepresentable(n);
  }

  /** The neighbours of x, and which of them Rounded encodes. */
  lemma Neighbours(x: real, factor: real) returns (l: nat, u: nat)
    requires 0.0 <= x && Ceil(x) <= MAX_AMOUNT
    ensures IsFloor(l, x) && IsCeil(u, x)
    ensures l == u <==> x == x.Floor as real && Representable(x.Floor)
    ensures l == u ==> l as real == x && Rounded(x, factor) == CreateExactUnsafe(l)
    ensures l < u ==>
              && l as real < x < u as real
              && Rounded(x, factor) == CreateExactUnsafe(if factor > LowerProbability(x, l, u) then u else l)
  {
    var floor, ceil := x.Floor, Ceil(x);
    if ceil <= 32 {
      SmallIsRepresentable(floor);
      SmallIsRepresentable(ceil);
      l, u := floor, ceil;
    } else {
      BoundsAreRepresentable(floor);
      forall r: int | Representable(r) ensures r <= Bounds(floor).0 || r >= Bounds(floor).1 {
        BoundsAreAdjacent(floor, r);
      }
      l, u := Bounds(floor).0, Bounds(floor).1;
      if floor == ceil && l == floor { u := floor; }
    }
  }

  /** x is l with probability p and u otherwise, on average. */
  ghost predicate IsMean(x: real, l: int, u: int, p: real)
  {
    l as real * p + u as real * (1.0 - p) == x
  }

  lemma Weights(x: real, l: int, u: int)
    requires l as real < x < u as real
    ensures var p := LowerProbability(x, l, u); 0.0 < p < 1.0 && IsMean(x, l, u, p)
  {
    var p, w := LowerProbability(x, l, u), u as real - l as real;
    assert p * w == u as real - x;
    assert l as real * p + u as real * (1.0 - p) == u as real - p * w;
  }

  /** Rounding is to a neighbour, exact where it can be, up at factor 1, and fair: x is the
      mean of its neighbours weighted with the probabilities of choosing them. */
  lemma RoundedIsFair(x: real, factor: real) returns (l: nat, u: nat, p: real)
    requires 0.0 <= x && Ceil(x) <= MAX_AMOUNT && 0.0 <= factor <= 1.0
    ensures IsFloor(l, x) && IsCeil(u, x)
    ensures l == u <==> x == x.Floor as real && Representable(x.Floor)
    ensures l < u ==> 0.0 < p < 1.0
    ensures IsMean(x, l, u, p)
    ensures Rounded(x, factor).Ok?
    ensures Amount(Rounded(x, factor).value) == Ok(if factor > p then u else l)
    ensures factor == 1.0 ==> Amount(Rounded(x, factor).value) == Ok(u)
  {
    l, u := Neighbours(x, factor);
    Encodes(l);
    Encodes(u);
    if l == u {
      p := 1.0;
    } else {
      p := LowerProbability(x, l, u);
      Weights(x, l, u);
    }
  }

  lemma AroundSixtyNine(r: int)
    ensures Representable(68) && Representable(72)
    ensures Representable(r) ==> r <= 68 || r >= 72
  {
    assert Shl(17, 2) == 68 && Shl(18, 2) == 72;
    assert InBinade(68, 17, 2) && InBinade(72, 18, 2);
    if Representable(r) { NoRepresentableBetween(r, 17, 2); }
  }

  /** An example: 69 lies a quarter of the way from 68 to 72, and at factor 1 it goes up. */
  lemma SixtyNineRoundsUp(x: real, factor: real)
    requires x == 69.0 && factor == 1.0
    ensures Rounded(x, factor).Ok? && Amount(Rounded(x, factor).value) == Ok(72)
  {
    var l, u, p := RoundedIsFair(x, factor);
    AroundSixtyNine(u);
  }

  /** Rounded refuses exactly negative amounts and amounts whose ceiling is too large. */
  lemma RoundedErrors(x: real, factor: real)
    ensures Rounded(x, factor) == Err(Negative) <==> x < 0.0
    ensures Rounded(x, factor) == Err(Overflow) <==> Ceil(x) > MAX_AMOUNT
    ensures Rounded(x, factor).Ok? <==> 0.0 <= x && Ceil(x) <= MAX_AMOUNT
  {
    if 0.0 <= x && Ceil(x) <= MAX_AMOUNT {
      var l, u := Neighbours(x, factor);
      Encodes(l);
      Encodes(u);
    }
  }

  // ---------- Blind bytes ----------

  function BlindBytes(c: Value): (b: seq<Byte>)
    requires c.value < 512
  {
    [(c.value / 256) * 2 + (if c.shift then 1 else 0), c.value % 256]
  }

  function ParseBlindBytes(b: seq<Byte>): (r: Result<Value>)
  {
    if |b| < 2 then Err(TooShort)
    else if b[0] > 3 then Err(TooManyBitsSet)
    else
      var low: int, top: int := b[1], b[0];
      Ok(Value(top == 1, low + if top >= 2 then 256 else 0))
  }

  /** Blind bytes come back as the value they were made from, unless the value is special and
      uses its top bit: then the mark of a special value is lost. */
  lemma BlindBytesRoundTrip(c: Value)
    requires c.value < 512
    ensures ParseBlindBytes(BlindBytes(c)) == Ok(c) <==> !(c.shift && c.value >= 256)
    ensures c.shift && c.value >= 256 ==> ParseBlindBytes(BlindBytes(c)) == Ok(c.(shift := false))
  {
  }

  /** Byte by byte: the lower eight bits of the value come second, its top bit and the mark of a
      special value are bits 1 and 0 of the first byte. What is parsed has those bytes, unless both
      bits are set, and what is refused is too short or has further bits. */
  lemma BlindBytesLayout(c: Value, b: seq<Byte>)
    requires c.value < 512
    ensures BlindBytes(c) == [(if c.value >= 256 then 2 else 0) + (if c.shift then 1 else 0), c.value % 256]
    ensures ParseBlindBytes(b).Ok? <==> |b| >= 2 && b[0] < 4
    ensures ParseBlindBytes(b).Ok? ==>
              && ParseBlindBytes(b).value.value < 512
              && (BlindBytes(ParseBlindBytes(b).value) == b[..2] <==> b[0] != 3)
  {
  }
}
