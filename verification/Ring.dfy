/** Slot indexing, power-of-two capacities and masks, shared by all four queues. */
module Ring {

  datatype Option<+T> = None | Some(value: T)

  datatype Result<+T> = Ok(value: T) | InvalidArgument

  // ---------------------------------------------------------------- slots

  /** The slot a position lives in: the position modulo the capacity. It is
      written by repeated subtraction, so that reasoning about windows of
      positions stays linear; SlotIsMod and MaskIsSlot connect it to `%` and
      to the mask the queues use. */
  function Slot(p: nat, c: nat): (i: nat)
    requires c > 0
    ensures i < c
  {
    if p < c then p else Slot(p - c, c)
  }

  lemma {:induction false} SlotQuotient(p: nat, c: nat) returns (q: nat)
    requires c > 0
    ensures p == c * q + Slot(p, c)
  {
    if p < c {
      q := 0;
    } else {
      q := SlotQuotient(p - c, c);
      assert c * (q + 1) == c * q + c;
      q := q + 1;
    }
  }

  lemma SlotIsMod(p: nat, c: nat)
    requires c > 0
    ensures Slot(p, c) == p % c
  {
    var q := SlotQuotient(p, c);
    QuotientUnique(q, Slot(p, c), p / c, p % c, c);
  }

  lemma QuotientUnique(q: int, r: int, q': int, r': int, c: int)
    requires 0 <= r < c && 0 <= r' < c
    requires c * q + r == c * q' + r'
    ensures r == r'
  {
    var d := q - q';
    assert c * d == r' - r;
    if d >= 1 {
      AtLeastFactor(c, d);
    } else if d <= -1 {
      AtLeastFactor(c, -d);
    }
  }

  lemma AtLeastFactor(c: int, d: int)
    requires c > 0 && d >= 1
    ensures c * d >= c
  {
  }

  /** Two different positions less than one lap apart never share a slot. */
  lemma {:induction false} SlotInjective(p: nat, q: nat, c: nat)
    requires c > 0
    requires p < q < p + c
    ensures Slot(p, c) != Slot(q, c)
  {
    if p < c {
    } else {
      SlotInjective(p - c, q - c, c);
    }
  }

  /** The same fact for a whole window, in the form the invariants use. */
  lemma WindowInjective(t: nat, c: nat)
    requires c > 0
    ensures forall p, q :: t <= p < t + c && t <= q < t + c && p != q ==> Slot(p, c) != Slot(q, c)
  {
    forall p, q | t <= p < t + c && t <= q < t + c && p != q
      ensures Slot(p, c) != Slot(q, c)
    {
      if p < q { SlotInjective(p, q, c); } else { SlotInjective(q, p, c); }
    }
  }

  /** Every slot is hit by some position of any window of c positions. */
  lemma {:induction false} WindowCovers(t: nat, i: nat, c: nat) returns (p: nat)
    requires i < c
    ensures t <= p < t + c && Slot(p, c) == i
  {
    if t == 0 {
      p := i;
    } else {
      p := WindowCovers(t - 1, i, c);
      if p == t - 1 {
        p := p + c;
      }
    }
  }

  // ------------------------------------------------- capacities and masks

  function Pow2(k: nat): (r: nat)
    ensures r >= 1
  {
    if k == 0 then 1 else 2 * Pow2(k - 1)
  }

  lemma {:induction false} Pow2Monotone(j: nat, k: nat)
    requires j <= k
    ensures Pow2(j) <= Pow2(k)
  {
    if j == k {
    } else {
      Pow2Monotone(j, k - 1);
    }
  }

  /** std::bit_ceil, found by doubling from Pow2(k). */
  function BitCeil(n: nat, k: nat): (r: nat)
    decreases n - Pow2(k)
  {
    if Pow2(k) >= n then Pow2(k) else BitCeil(n, k + 1)
  }

  /** check_and_round_capacity of the three headers; they differ only in the
      largest capacity they accept, 2^maxExponent. */
  function CheckAndRoundCapacity(n: nat, maxExponent: nat): (r: Result<nat>) {
    if n < 2 then InvalidArgument
    else if n > Pow2(maxExponent) then InvalidArgument
    else Ok(BitCeil(n, 0))
  }

  lemma {:induction false} BitCeilIsLeast(n: nat, k: nat, m: nat) returns (e: nat)
    requires k == 0 || Pow2(k - 1) < n
    requires n <= Pow2(m)
    ensures BitCeil(n, k) == Pow2(e) && n <= Pow2(e) && k <= e <= m
    ensures forall j: nat :: n <= Pow2(j) ==> e <= j
    decreases n - Pow2(k)
  {
    if k > m {
      Pow2Monotone(m, k - 1);
      assert false;
    }
    if Pow2(k) >= n {
      e := k;
      forall j: nat | n <= Pow2(j) ensures e <= j {
        if j < k {
          Pow2Monotone(j, k - 1);
        }
      }
    } else {
      e := BitCeilIsLeast(n, k + 1, m);
    }
  }

  /** A capacity is accepted exactly from 2 to 2^maxExponent, and then the ring
      gets the least power of two that holds it, itself within both bounds. */
  lemma CapacityIsLeastPowerOfTwo(n: nat, maxExponent: nat)
    requires maxExponent > 0
    ensures CheckAndRoundCapacity(n, maxExponent).Ok? <==> 2 <= n <= Pow2(maxExponent)
    ensures 2 <= n <= Pow2(maxExponent) ==>
              exists e: nat ::
                && CheckAndRoundCapacity(n, maxExponent) == Ok(Pow2(e))
                && 1 <= e <= maxExponent && n <= Pow2(e)
                && forall j: nat :: n <= Pow2(j) ==> e <= j
  {
    if 2 <= n <= Pow2(maxExponent) {
      var e := BitCeilIsLeast(n, 0, maxExponent);
      assert e != 0;
    }
  }

  /** The exponent of an accepted capacity. */
  lemma CapacityExponent(n: nat, maxExponent: nat) returns (e: nat)
    requires maxExponent > 0 && 2 <= n <= Pow2(maxExponent)
    ensures CheckAndRoundCapacity(n, maxExponent) == Ok(Pow2(e)) && 1 <= e && n <= Pow2(e)
    ensures forall j: nat :: n <= Pow2(j) ==> Pow2(e) <= Pow2(j)
  {
    e := BitCeilIsLeast(n, 0, maxExponent);
    assert e != 0;
    forall j: nat | n <= Pow2(j) ensures Pow2(e) <= Pow2(j) {
      Pow2Monotone(e, j);
    }
  }

  /** Bitwise and of unsigned words, bit by bit from the lowest. */
  function And(a: nat, b: nat): (r: nat) {
    if a == 0 || b == 0 then 0
    else (if a % 2 == 1 && b % 2 == 1 then 1 else 0) + 2 * And(a / 2, b / 2)
  }

  lemma {:induction false} SlotDoubles(p: nat, c: nat)
    requires c > 0
    ensures Slot(p, 2 * c) == 2 * Slot(p / 2, c) + p % 2
  {
    if p < 2 * c {
    } else {
      SlotDoubles(p - 2 * c, c);
      assert (p - 2 * c) / 2 == p / 2 - c;
    }
  }

  /** `p & mask_` with mask_ == capacity_ - 1 and a power-of-two capacity. */
  lemma {:induction false} MaskIsSlot(p: nat, k: nat)
    ensures And(p, Pow2(k) - 1) == Slot(p, Pow2(k))
  {
    if k == 0 {
      SlotOfOne(p);
    } else {
      var m := Pow2(k - 1);
      assert (2 * m - 1) % 2 == 1 && (2 * m - 1) / 2 == m - 1;
      MaskIsSlot(p / 2, k - 1);
      SlotDoubles(p, m);
    }
  }

  lemma {:induction false} SlotOfOne(p: nat)
    ensures Slot(p, 1) == 0
  {
    if p == 0 {
    } else {
      SlotOfOne(p - 1);
    }
  }

  /** std::has_single_bit */
  predicate HasSingleBit(n: nat) {
    n == 1 || (n > 1 && n % 2 == 0 && HasSingleBit(n / 2))
  }

  lemma {:induction false} SingleBitHasExponent(n: nat) returns (k: nat)
    requires HasSingleBit(n)
    ensures n == Pow2(k)
  {
    if n == 1 {
      k := 0;
    } else {
      k := SingleBitHasExponent(n / 2);
      k := k + 1;
    }
  }

  /** It holds exactly of the powers of two. */
  lemma SingleBitIffPowerOfTwo(n: nat)
    ensures HasSingleBit(n) <==> exists k: nat :: n == Pow2(k)
  {
    if HasSingleBit(n) {
      var k := SingleBitHasExponent(n);
    }
    forall k: nat | n == Pow2(k) ensures HasSingleBit(n) {
      PowerHasSingleBit(k);
    }
  }

  lemma {:induction false} PowerHasSingleBit(k: nat)
    ensures HasSingleBit(Pow2(k))
  {
    if k == 0 {
    } else {
      PowerHasSingleBit(k - 1);
    }
  }
}
