/** SPMCQueue computes with 64-bit unsigned words that wrap around. This module
    shows that its tests on words decide what the unbounded model decides. */
module SpmcWords {
  import opened Ring
  import opened SpmcModel
  import opened SpmcInvariant

  const WORD: int := 0x1_0000_0000_0000_0000
  const HALF: int := 0x8000_0000_0000_0000

  /** The word that stores x. */
  function Wrap(x: int): (w: nat)
    ensures w < WORD
  {
    x % WORD
  }

  datatype Verdict = IsFull | IsEmpty | IsStale

  /** The tests of try_pop and pop_wait, on words: diff == 0, and
      diff > size_t(-1) / 2. */
  function WordVerdict(seen: nat, h: nat): Verdict {
    var diff := Wrap(seen - Wrap(h + 1));
    if diff == 0 then IsFull
    else if diff > (WORD - 1) / 2 then IsEmpty
    else IsStale
  }

  /** The same tests on unbounded numbers. */
  function ExactVerdict(seen: nat, h: nat): Verdict {
    if seen == h + 1 then IsFull
    else if seen < h + 1 then IsEmpty
    else IsStale
  }

  /** The subtraction of the code, on the words of seen and h. */
  lemma WrappedDifference(seen: nat, h: nat)
    requires -WORD < seen - (h + 1) < WORD
    ensures Wrap(Wrap(seen) - Wrap(Wrap(h) + 1)) == Wrap(seen - (h + 1))
    ensures Wrap(seen - (h + 1)) == seen - (h + 1) + (if seen > h then 0 else WORD)
  {
  }

  /** Within one wrap of each other, the word tests are right exactly when the
      distance fits a signed word. At a distance of 2^63 a stale copy of head_
      is taken for an empty queue. */
  lemma WordVerdictExact(seen: nat, h: nat)
    requires -WORD < seen - (h + 1) < WORD
    ensures WordVerdict(Wrap(seen), Wrap(h)) == ExactVerdict(seen, h) <==> -HALF <= seen - (h + 1) < HALF
  {
    hide Wrap;
    WrappedDifference(seen, h);
  }

  lemma WrapInjective(x: nat, y: nat)
    requires -WORD < x - y < WORD
    ensures Wrap(x) == Wrap(y) <==> x == y
  {
  }

  // ------------------------------------------------------------ the queue

  /** How far a consumer's copy of head_ may lag, never mind how many positions
      have been used in total; while no more than 2^63 - C have been, any copy
      will do. An up-to-date copy may be used with every capacity the
      constructor accepts. */
  predicate NotTooStale<T>(s: State<T>, h: nat) {
    h == s.head || |s.published| - h + s.capacity <= HALF + 1
  }

  lemma SequenceBounds<T>(s: State<T>, h: nat)
    requires Inv(s) && h <= s.head && 0 < s.capacity <= HALF && NotTooStale(s, h)
    ensures -HALF <= s.sequence[Slot(h, s.capacity)] - (h + 1) < HALF
  {
    SequenceAt(s, h);
    var p := WindowCovers(|s.published|, Slot(h, s.capacity), s.capacity);
    assert SlotOk(s, p);
  }

  /** The sequence test of a pop, for every reachable state and every total
      number of positions. */
  lemma ConsumerTestOnWords<T>(s: State<T>, c: nat)
    requires Inv(s) && Enabled(s, ConsumerLoad(c)) && s.capacity <= HALF
    requires NotTooStale(s, s.consumers[c].h)
    ensures var h := s.consumers[c].h;
            var seen := s.sequence[Slot(h, s.capacity)];
            WordVerdict(Wrap(seen), Wrap(h)) == ExactVerdict(seen, h)
  {
    assert ConsumerOk(s, c);
    SequenceBounds(s, s.consumers[c].h);
    WordVerdictExact(s.sequence[Slot(s.consumers[c].h, s.capacity)], s.consumers[c].h);
  }

  /** The CAS on words succeeds exactly when it would on unbounded numbers,
      unless the copy of head_ is a whole wrap behind. */
  lemma CasOnWords<T>(s: State<T>, c: nat)
    requires Inv(s) && c < |s.consumers| && s.consumers[c].CRace?
    requires s.head - s.consumers[c].h < WORD
    ensures Wrap(s.head) == Wrap(s.consumers[c].h) <==> Enabled(s, CasSuccess(c))
  {
    assert ConsumerOk(s, c);
    WrapInjective(s.head, s.consumers[c].h);
  }

  /** The producer's test needs no bound on the positions at all. */
  lemma ProducerTestOnWords<T>(s: State<T>)
    requires Inv(s) && Enabled(s, ProducerLoad) && s.capacity <= HALF
    ensures var t := s.producer.t;
            var seen := s.sequence[Slot(t, s.capacity)];
            Wrap(seen) == Wrap(t) <==> seen == t
  {
    var t := s.producer.t;
    SequenceAt(s, t);
    WrapInjective(s.sequence[Slot(t, s.capacity)], t);
  }

  /** The compare inside a consumer's wait is exact unless whole wraps of
      positions have been published since the load it waits on. */
  lemma ConsumerWaitOnWords<T>(s: State<T>, c: nat)
    requires Inv(s) && Enabled(s, ConsumerCompare(c))
    requires |s.published| - s.consumers[c].h + 2 * s.capacity <= WORD
    ensures var k := s.consumers[c];
            var now := s.sequence[Slot(k.h, s.capacity)];
            Wrap(now) == Wrap(k.seen) <==> now == k.seen
  {
    var h := s.consumers[c].h;
    assert ConsumerOk(s, c);
    SequenceAt(s, h);
    var p := WindowCovers(|s.published|, Slot(h, s.capacity), s.capacity);
    assert SlotOk(s, p);
    WrapInjective(s.sequence[Slot(h, s.capacity)], s.consumers[c].seen);
  }

  /** The compare inside the producer's wait is always exact. */
  lemma ProducerWaitOnWords<T>(s: State<T>)
    requires Inv(s) && Enabled(s, ProducerCompare) && s.capacity <= HALF
    ensures var p := s.producer;
            var now := s.sequence[Slot(p.t, s.capacity)];
            Wrap(now) == Wrap(p.seen) <==> now == p.seen
  {
    SequenceAt(s, s.producer.t);
    WrapInjective(s.sequence[Slot(s.producer.t, s.capacity)], s.producer.seen);
  }

  // ------------------------------------------------------------- indexing

  lemma {:induction false} Pow2Sum(j: nat, k: nat)
    ensures Pow2(j + k) == Pow2(j) * Pow2(k)
  {
    if j == 0 {
    } else {
      Pow2Sum(j - 1, k);
      assert 2 * (Pow2(j - 1) * Pow2(k)) == (2 * Pow2(j - 1)) * Pow2(k);
    }
  }

  lemma {:induction false} SlotSkipsLaps(p: nat, laps: nat, c: nat)
    requires c > 0
    ensures laps * c >= 0 && Slot(p + laps * c, c) == Slot(p, c)
  {
    if laps == 0 {
    } else {
      SlotSkipsLaps(p, laps - 1, c);
      assert laps * c == (laps - 1) * c + c;
    }
  }

  lemma MulAssociates(x: int, y: int, z: int)
    ensures x * (y * z) == (x * y) * z
  {
  }

  lemma WholeLapsKeepSlot(p: nat, q: nat, r: nat, a: nat, c: nat)
    requires c > 0 && p == r + q * (a * c)
    ensures Slot(r, c) == Slot(p, c)
  {
    MulAssociates(q, a, c);
    SlotSkipsLaps(r, q * a, c);
  }

  lemma BytePower()
    ensures Pow2(8) == 256
  {
  }

  lemma WordIsPower()
    ensures WORD == Pow2(64)
  {
    hide Pow2;
    BytePower();
    Pow2Sum(8, 8);
    Pow2Sum(16, 16);
    Pow2Sum(32, 32);
  }

  /** Masking the wrapped position gives the slot of the unbounded one. */
  lemma MaskOnWords(p: nat, k: nat)
    requires k <= 64
    ensures And(Wrap(p), Pow2(k) - 1) == Slot(p, Pow2(k))
  {
    hide And, Slot, Pow2;
    WordIsPower();
    Pow2Sum(64 - k, k);
    MaskIsSlot(Wrap(p), k);
    var q := p / WORD;
    assert p == Wrap(p) + q * WORD;
    WholeLapsKeepSlot(p, q, Wrap(p), Pow2(64 - k), Pow2(k));
  }
}
