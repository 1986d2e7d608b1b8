/** Concrete runs of SPMCOverwriteQueue, with capacity 2, one-word items and one
    consumer that starts at position 1 and then stalls. */
module OverwriteScenarios {
  import opened Ring
  import opened OverwriteModel
  import opened OverwriteInvariant
  import opened OverwriteTheorems

  /** Extends a run by one action. */
  lemma Next(s0: State, acts: seq<Action>, s: State, a: Action) returns (acts': seq<Action>, s': State)
    requires Run(s0, acts) == s
    ensures acts' == acts + [a] && s' == Apply(s, a) && Run(s0, acts') == s'
  {
    acts', s' := acts + [a], Apply(s, a);
    assert acts'[..|acts'| - 1] == acts;
  }

  /** A publish up to the point where the payload has been written. */
  lemma Write(s0: State, acts: seq<Action>, s: State, w: Word) returns (acts': seq<Action>, s': State)
    requires Run(s0, acts) == s && Shape(s) && s.writer == WIdle && s.words == 1
    ensures Run(s0, acts') == s'
    ensures var p := s.writePos + 1;
            var i := Slot(p, s.capacity);
            s' == s.(writePos := p, writer := WWriting(p, [w], {}), started := s.started + [[w]],
                     sequence := s.sequence[i := 2 * p + 1], data := s.data[i := [w]], marks := s.marks + [s.now])
  {
    acts', s' := Next(s0, acts, s, Publish([w]));
    acts', s' := Next(s0, acts', s', MarkWriting);
    assert AllWords(1) == {0};
    acts', s' := Next(s0, acts', s', CopyWord(0));
    assert s.data[Slot(s.writePos + 1, s.capacity)][0 := w] == [w];
    assert s'.writer.todo == {};
  }

  lemma WriteAll(s0: State, acts: seq<Action>, s: State, w: Word) returns (acts': seq<Action>, s': State)
    requires Run(s0, acts) == s && Shape(s) && s.writer == WIdle && s.words == 1
    ensures Run(s0, acts') == s'
    ensures var p := s.writePos + 1;
            var i := Slot(p, s.capacity);
            s' == s.(writePos := p, published := p, started := s.started + [[w]],
                     sequence := s.sequence[i := 2 * p], data := s.data[i := [w]], marks := s.marks + [s.now])
  {
    acts', s' := Write(s0, acts, s, w);
    acts', s' := Next(s0, acts', s', MarkStable);
    acts', s' := Next(s0, acts', s', StorePublished);
    var i := Slot(s.writePos + 1, s.capacity);
    assert s'.sequence == s.sequence[i := 2 * (s.writePos + 1)];
  }

  const FULL_RING := State(2, 1, 2, 2, [4, 2], [[8], [7]], WIdle,
                          [Present(1, 1, 0, RIdle, None, [])], [[7], [8]], 0, [0, 0])

  lemma ReachFullRing() returns (acts: seq<Action>)
    ensures Run(Init(2, 1, 1), acts) == FULL_RING
  {
    var s0 := Init(2, 1, 1);
    assert s0.data[0] == [0] && s0.data[1] == [0];
    var s := s0;
    acts := [];
    acts, s := Next(s0, acts, s, MakeConsumer(0, 0));
    assert s == State(2, 1, 0, 0, [0, 0], [[0], [0]], WIdle, FULL_RING.consumers, [], 0, []);
    acts, s := FillRing(s0, acts, s);
  }

  lemma FillRing(s0: State, acts: seq<Action>, s: State) returns (acts': seq<Action>, s': State)
    requires Run(s0, acts) == s
    requires s == State(2, 1, 0, 0, [0, 0], [[0], [0]], WIdle, FULL_RING.consumers, [], 0, [])
    ensures Run(s0, acts') == s' == FULL_RING
  {
    assert Slot(1, 2) == 1 && Slot(2, 2) == 0;
    acts', s' := WriteAll(s0, acts, s, 7);
    assert s' == State(2, 1, 1, 1, [0, 2], [[0], [7]], WIdle, FULL_RING.consumers, [[7]], 0, [0]);
    acts', s' := WriteAll(s0, acts', s', 8);
    assert s' == FULL_RING;
  }

  const MID_REWRITE := FULL_RING.(writePos := 3, sequence := [4, 7], data := [[8], [9]],
                                writer := WWriting(3, [9], {}), started := [[7], [8], [9]], marks := [0, 0, 0])

  lemma ReachMidRewrite() returns (acts: seq<Action>)
    ensures Run(Init(2, 1, 1), acts) == MID_REWRITE
  {
    acts := ReachFullRing();
    var s := FULL_RING;
    assert Slot(3, 2) == 1;
    acts, s := Write(Init(2, 1, 1), acts, s, 9);
    assert s.sequence == [4, 7] && s.data == [[8], [9]];
  }

  /** An odd sequence answers Empty even to a consumer a whole lap behind: its
      item is already gone and position 2 is there to be read. */
  lemma EmptyThoughLapped() returns (acts: seq<Action>)
    ensures var s := Run(Init(2, 1, 1), acts);
            && Enabled(s, LoadSequence(0)) && s.consumers[0].pos == 1
            && Overwritten(s, 1) && Intact(s, 2)
            && Apply(s, LoadSequence(0)).consumers[0] == Present(1, 1, 0, RIdle, Some(Empty), [])
  {
    acts := ReachMidRewrite();
    var s := MID_REWRITE;
    assert Slot(1, 2) == 1;
    acts, s := Next(Init(2, 1, 1), acts, s, ReadCall(0));
  }

  const REWRITTEN := MID_REWRITE.(sequence := [4, 6], writer := WStable(3))

  lemma ReachRewritten() returns (acts: seq<Action>)
    ensures Run(Init(2, 1, 1), acts) == REWRITTEN
  {
    acts := ReachMidRewrite();
    var s;
    assert Slot(3, 2) == 1;
    acts, s := Next(Init(2, 1, 1), acts, MID_REWRITE, MarkStable);
    assert s.sequence == [4, 6];
  }

  const BEHIND := REWRITTEN.(consumers := [Present(1, 1, 0, RLapped(3), None, [])])

  const CAUGHT_UP := REWRITTEN.(published := 3, writer := WIdle)

  /** published_ has caught up, but the consumer's load of it returns the value
      before: it skips position 2 all the same. */
  lemma SkipsOnAStaleLoad() returns (acts: seq<Action>)
    ensures var s := Run(Init(2, 1, 1), acts);
            && s.published == 3 && Enabled(s, LoadPublished(0, 2))
            && SkipsIntact(s, s.consumers[0], 2) && Intact(s, 2)
            && Apply(s, LoadPublished(0, 2)).consumers[0] == Present(1, 3, 2, RIdle, Some(Lapped), [])
  {
    acts := ReachRewritten();
    var s := REWRITTEN;
    assert Slot(1, 2) == 1;
    acts, s := Next(Init(2, 1, 1), acts, s, StorePublished);
    assert s == CAUGHT_UP;
    acts, s := Next(Init(2, 1, 1), acts, s, ReadCall(0));
    acts, s := Next(Init(2, 1, 1), acts, s, LoadSequence(0));
    assert s == CAUGHT_UP.(consumers := BEHIND.consumers);
  }

  /** published_ lags the slot's stable mark: the consumer sees position 3 in its
      slot, loads published_ == 2, and skips position 2, which is still whole. */
  lemma SkipsAnIntactItem() returns (acts: seq<Action>)
    ensures var s := Run(Init(2, 1, 1), acts);
            && s.published == 2 && Enabled(s, LoadPublished(0, 2))
            && SkipsIntact(s, s.consumers[0], 2) && Intact(s, 2)
            && Apply(s, LoadPublished(0, 2)).consumers[0] == Present(1, 3, 2, RIdle, Some(Lapped), [])
  {
    acts := ReachRewritten();
    var s := REWRITTEN;
    assert Slot(1, 2) == 1;
    acts, s := Next(Init(2, 1, 1), acts, s, ReadCall(0));
    acts, s := Next(Init(2, 1, 1), acts, s, LoadSequence(0));
    assert s == BEHIND;
  }
}
