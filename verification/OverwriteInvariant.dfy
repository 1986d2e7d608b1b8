/** The invariant of SPMCOverwriteQueue. A slot's sequence values never repeat,
    although they step down from 2p + 1 to 2p: what only grows is the number of
    positions marked, and a slot shows position p exactly while fewer than p + C
    positions have been marked. */
module OverwriteInvariant {
  import opened Ring
  import opened OverwriteModel

  /** Positions whose odd mark has been stored. */
  ghost function Marked(s: State): nat {
    |s.marks|
  }

  /** Positions whose even mark has been stored. */
  ghost function Stable(s: State): int {
    Marked(s) - (if s.writer.WWriting? then 1 else 0)
  }

  ghost predicate WriterOk(s: State) {
    && |s.started| == s.writePos
    && (forall i :: 0 <= i < |s.started| ==> |s.started[i]| == s.words)
    && Marked(s) == s.writePos - (if s.writer.WStarted? then 1 else 0)
    && s.published == s.writePos - (if s.writer.WIdle? then 0 else 1)
    && (s.writer.WIdle? || (s.writer.pos == s.writePos > 0))
    && (s.writer.WStarted? || s.writer.WWriting? ==> s.writer.item == s.started[s.writePos - 1])
    && (s.writer.WWriting? ==> forall j :: j in s.writer.todo ==> j < s.words)
  }

  /** The slot of p, the next position to be marked there, still belongs to
      p - C, or to no position at all. */
  ghost predicate SlotOk(s: State, p: nat)
    requires Shape(s) && WriterOk(s) && Marked(s) < p <= Marked(s) + s.capacity
  {
    var i, q := Slot(p, s.capacity), p - s.capacity;
    if q <= 0 then s.sequence[i] == 0
    else if q == Marked(s) && s.writer.WWriting? then
      s.sequence[i] == 2 * q + 1
      && forall j :: 0 <= j < s.words && j !in s.writer.todo ==> s.data[i][j] == s.writer.item[j]
    else s.sequence[i] == 2 * q && s.data[i] == s.started[q - 1]
  }

  ghost predicate SlotsOk(s: State)
    requires Shape(s) && WriterOk(s)
  {
    forall p :: Marked(s) < p <= Marked(s) + s.capacity ==> SlotOk(s, p)
  }

  /** The item of position q is whole in its slot and not being overwritten. */
  ghost predicate Intact(s: State, q: nat) {
    1 <= q <= Stable(s) && q + s.capacity > Marked(s)
  }

  ghost predicate ReaderOk(s: State, pos: nat, r: Reader) {
    match r
    case RIdle => true
    case RLoad => true
    case RCopy(s1, out, todo) =>
      && s1 == 2 * pos && 1 <= pos <= Stable(s) && pos <= |s.started| && |out| == s.words
      && |s.started[pos - 1]| == s.words
      && (forall j :: j in todo ==> j < s.words)
      && (Intact(s, pos) ==>
            forall j :: 0 <= j < s.words && j !in todo ==> out[j] == s.started[pos - 1][j])
    case RLapped(newest) =>
      newest <= Marked(s) && (newest == pos + s.capacity || newest >= pos + 2 * s.capacity)
  }

  ghost predicate ReceivedOk(s: State, k: Consumer)
    requires k.Present?
  {
    && (forall i :: 0 <= i < |k.received| ==>
          var r := k.received[i];
          1 <= k.start <= r.position < k.pos && r.position <= |s.started| && r.item == s.started[r.position - 1])
    && (forall i, j :: 0 <= i < j < |k.received| ==> k.received[i].position < k.received[j].position)
    && |k.received| + k.missed == k.pos - k.start
  }

  ghost predicate ConsumerOk(s: State, k: Consumer) {
    k.Present? ==>
      && 1 <= k.start <= k.pos <= Stable(s) + 1
      && ReaderOk(s, k.pos, k.reader) && ReceivedOk(s, k)
  }

  ghost predicate ConsumersOk(s: State) {
    forall c :: 0 <= c < |s.consumers| ==> ConsumerOk(s, s.consumers[c])
  }

  ghost predicate Inv(s: State) {
    s.capacity >= 2 && Shape(s) && WriterOk(s) && SlotsOk(s) && ConsumersOk(s)
  }

  lemma InitInv(capacity: nat, words: nat, consumers: nat)
    requires capacity >= 2
    ensures Inv(Init(capacity, words, consumers))
  {
    var s := Init(capacity, words, consumers);
    forall p | 0 < p <= s.capacity ensures SlotOk(s, p) {
    }
  }

  /** What a slot shows to someone at position pos: pos itself exactly while
      pos + C has not been marked, else a later position of the same slot. */
  lemma Shows(s: State, pos: nat)
    requires s.capacity >= 2 && Shape(s) && WriterOk(s) && SlotsOk(s) && 1 <= pos <= Marked(s) + 1
    ensures var i := Slot(pos, s.capacity);
            var x := s.sequence[i];
            && (pos == Marked(s) + 1 ==> x % 2 == 0 && x / 2 < pos)
            && (pos <= Marked(s) ==> pos <= x / 2 <= Marked(s) && Slot(x / 2, s.capacity) == i)
            && (pos <= Marked(s) ==> x / 2 == pos || x / 2 == pos + s.capacity || x / 2 >= pos + 2 * s.capacity)
            && (pos <= Marked(s) ==> (x / 2 == pos <==> pos + s.capacity > Marked(s)))
            && (x % 2 == 1 ==> x / 2 == Marked(s) && s.writer.WWriting?)
            && (1 <= x / 2 == Marked(s) && s.writer.WWriting? ==> x % 2 == 1)
            && (Intact(s, pos) ==> x == 2 * pos && pos <= |s.started| && s.data[i] == s.started[pos - 1])
  {
    if pos == Marked(s) + 1 {
      assert SlotOk(s, pos);
    } else {
      ShowsFrom(s, pos, pos);
    }
  }

  lemma {:induction false} ShowsFrom(s: State, pos: nat, q: nat)
    requires s.capacity >= 2 && Shape(s) && WriterOk(s) && SlotsOk(s) && 1 <= pos <= q <= Marked(s)
    requires Slot(q, s.capacity) == Slot(pos, s.capacity)
    requires q == pos || q == pos + s.capacity || q >= pos + 2 * s.capacity
    ensures var i := Slot(pos, s.capacity);
            var x := s.sequence[i];
            && q <= x / 2 <= Marked(s) && Slot(x / 2, s.capacity) == i
            && (x / 2 == q || x / 2 >= q + s.capacity)
            && (x / 2 == pos || x / 2 == pos + s.capacity || x / 2 >= pos + 2 * s.capacity)
            && (x / 2 == q <==> q + s.capacity > Marked(s))
            && (x % 2 == 1 ==> x / 2 == Marked(s) && s.writer.WWriting?)
            && (1 <= x / 2 == Marked(s) && s.writer.WWriting? ==> x % 2 == 1)
            && (Intact(s, q) ==> x == 2 * q && q <= |s.started| && s.data[i] == s.started[q - 1])
    decreases Marked(s) - q
  {
    if q + s.capacity <= Marked(s) {
      ShowsFrom(s, pos, q + s.capacity);
    } else {
      assert SlotOk(s, q + s.capacity);
    }
  }

  // --------------------------------------------------------- the writer

  /** Consumers stay right while the logs and counts of positions only grow. */
  lemma ConsumersFrame(s: State, s': State)
    requires WriterOk(s) && WriterOk(s') && ConsumersOk(s) && s'.consumers == s.consumers
    requires s'.capacity == s.capacity && s'.words == s.words && s.started <= s'.started
    requires Marked(s) <= Marked(s') && Stable(s) <= Stable(s')
    ensures ConsumersOk(s')
  {
    forall c | 0 <= c < |s'.consumers| ensures ConsumerOk(s', s'.consumers[c]) {
      assert ConsumerOk(s, s.consumers[c]);
    }
  }

  lemma QuietWriterInv(s: State, a: Action)
    requires Inv(s) && Enabled(s, a) && (a.Tick? || a.Publish? || a.StorePublished?)
    ensures Inv(Apply(s, a))
  {
    var s' := Apply(s, a);
    forall p | Marked(s') < p <= Marked(s') + s'.capacity ensures SlotOk(s', p) {
      assert SlotOk(s, p);
    }
    ConsumersFrame(s, s');
  }

  lemma MarkWritingInv(s: State)
    requires Inv(s) && Enabled(s, MarkWriting)
    ensures Inv(Apply(s, MarkWriting))
  {
    var s' := Apply(s, MarkWriting);
    var m := Marked(s);
    forall p | m + 1 < p <= m + 1 + s.capacity ensures SlotOk(s', p) {
      if p <= m + s.capacity {
        assert SlotOk(s, p);
        SlotInjective(m + 1, p, s.capacity);
      } else {
        assert Slot(p, s.capacity) == Slot(m + 1, s.capacity);
      }
    }
    ConsumersFrame(s, s');
  }

  lemma WritingSlots(s: State, a: Action)
    requires Inv(s) && Enabled(s, a) && (a.CopyWord? || a.MarkStable?)
    ensures Shape(Apply(s, a)) && WriterOk(Apply(s, a)) && SlotsOk(Apply(s, a))
  {
    hide ConsumersOk;
    var s' := Apply(s, a);
    var m := Marked(s);
    assert Slot(m + s.capacity, s.capacity) == Slot(m, s.capacity);
    assert SlotOk(s, m + s.capacity);
    forall p | m < p <= m + s.capacity ensures SlotOk(s', p) {
      assert SlotOk(s, p);
      if p < m + s.capacity {
        SlotInjective(p, m + s.capacity, s.capacity);
      }
    }
  }

  lemma WritingInv(s: State, a: Action)
    requires Inv(s) && Enabled(s, a) && (a.CopyWord? || a.MarkStable?)
    ensures Inv(Apply(s, a))
  {
    hide SlotsOk;
    WritingSlots(s, a);
    ConsumersFrame(s, Apply(s, a));
  }

  // -------------------------------------------------------- a consumer

  /** Only consumer c changes. */
  lemma ConsumerStepFrame(s: State, c: nat, k: Consumer)
    requires Inv(s) && c < |s.consumers| && ConsumerOk(s, k)
    ensures Inv(s.(consumers := s.consumers[c := k]))
  {
    var s' := s.(consumers := s.consumers[c := k]);
    forall p | Marked(s') < p <= Marked(s') + s'.capacity ensures SlotOk(s', p) {
      assert SlotOk(s, p);
    }
    forall d | 0 <= d < |s'.consumers| ensures ConsumerOk(s', s'.consumers[d]) {
      assert ConsumerOk(s, s.consumers[d]);
      assert ConsumerOk(s, s'.consumers[d]);
      assert ReaderOk(s, 1, RIdle) == ReaderOk(s', 1, RIdle);
    }
  }

  /** The words copied so far are the item's, or the slot has been lapped. */
  lemma ReadWordOk(s: State, c: nat, j: nat)
    requires Inv(s) && Enabled(s, ReadWord(c, j))
    ensures ConsumerOk(s, Reading(s, ReadWord(c, j)))
  {
    assert ConsumerOk(s, s.consumers[c]);
    Shows(s, s.consumers[c].pos);
  }

  /** The validating load sees the same value only if the position is intact. */
  lemma LoadAgainOk(s: State, c: nat)
    requires Inv(s) && Enabled(s, LoadAgain(c))
    ensures ConsumerOk(s, Reading(s, LoadAgain(c)))
    ensures var k := s.consumers[c];
            s.sequence[Slot(k.pos, s.capacity)] == k.reader.s1 ==>
              Intact(s, k.pos) && k.pos <= |s.started| && k.reader.out == s.started[k.pos - 1]
  {
    var k := s.consumers[c];
    assert ConsumerOk(s, k);
    Shows(s, k.pos);
    if s.sequence[Slot(k.pos, s.capacity)] == k.reader.s1 {
      assert k.reader.out == s.started[k.pos - 1];
      ReceiveOk(s, k, Reading(s, LoadAgain(c)), k.reader.out);
    }
  }

  lemma ReceiveOk(s: State, k: Consumer, k': Consumer, item: Item)
    requires k.Present? && ReceivedOk(s, k) && 1 <= k.start <= k.pos <= |s.started| && item == s.started[k.pos - 1]
    requires k'.Present? && k'.start == k.start && k'.pos == k.pos + 1 && k'.missed == k.missed
    requires k'.received == k.received + [Received(k.pos, item)]
    ensures ReceivedOk(s, k')
  {
  }

  lemma LoadSequenceOk(s: State, c: nat)
    requires Inv(s) && Enabled(s, LoadSequence(c))
    ensures ConsumerOk(s, Reading(s, LoadSequence(c)))
  {
    var k := s.consumers[c];
    assert ConsumerOk(s, k);
    Shows(s, k.pos);
  }

  /** Recovery always moves forward, and never past the newest marked position,
      however stale the published_ it loads. */
  lemma LoadPublishedOk(s: State, c: nat, p: nat)
    requires Inv(s) && Enabled(s, LoadPublished(c, p))
    ensures ConsumerOk(s, Reading(s, LoadPublished(c, p)))
    ensures s.consumers[c].pos < Reading(s, LoadPublished(c, p)).pos <= Marked(s)
  {
    assert ConsumerOk(s, s.consumers[c]);
  }

  lemma ReadingOk(s: State, a: Action)
    requires Inv(s) && Enabled(s, a) && OfConsumer(a)
    ensures ConsumerOk(s, Reading(s, a))
  {
    if a.LoadSequence? {
      LoadSequenceOk(s, a.c);
    } else if a.ReadWord? {
      ReadWordOk(s, a.c, a.j);
    } else if a.LoadAgain? {
      LoadAgainOk(s, a.c);
    } else if a.LoadPublished? {
      LoadPublishedOk(s, a.c, a.p);
    } else {
      assert ConsumerOk(s, s.consumers[a.c]);
    }
  }

  lemma ApplyInv(s: State, a: Action)
    requires Inv(s)
    ensures Inv(Apply(s, a))
  {
    if Enabled(s, a) {
      if a.MarkWriting? {
        MarkWritingInv(s);
      } else if a.CopyWord? || a.MarkStable? {
        WritingInv(s, a);
      } else if OfConsumer(a) {
        ReadingOk(s, a);
        ConsumerStepFrame(s, a.c, Reading(s, a));
      } else {
        QuietWriterInv(s, a);
      }
    }
  }

  /** Every reachable state, for any capacity, payload size, number of consumers
      and interleaving. */
  lemma {:induction false} RunInv(s: State, acts: seq<Action>)
    requires Inv(s)
    ensures Inv(Run(s, acts))
  {
    if acts == [] {
    } else {
      RunInv(s, acts[..|acts| - 1]);
      ApplyInv(Run(s, acts[..|acts| - 1]), acts[|acts| - 1]);
    }
  }
}
