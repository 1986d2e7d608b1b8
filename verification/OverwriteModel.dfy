/** SPMCOverwriteQueue as a transition system: the seqlock stores and loads are
    single steps, and the payload is copied one word at a time on both sides, in
    any order of the words. The loads of published_ may return an older value. */
module OverwriteModel {
  import opened Ring

  type Word = int
  type Item = seq<Word>

  datatype Status = Ok | Empty | Lapped

  /** The words of an item still to be copied, before any has been. */
  function AllWords(n: nat): (r: set<nat>)
    ensures forall j: nat :: j in r <==> j < n
  {
    if n == 0 then {} else AllWords(n - 1) + {n - 1}
  }

  function Blank(n: nat): Item {
    seq(n, i => 0)
  }

  /** publish: write_pos_ has been incremented to pos in every state but WIdle. */
  datatype Writer =
    | WIdle
    | WStarted(pos: nat, item: Item)               // about to store 2 * pos + 1
    | WWriting(pos: nat, item: Item, todo: set<nat>)   // words still to be copied in
    | WStable(pos: nat)                            // stored 2 * pos, about to store published_

  /** try_read and lapped_to. */
  datatype Reader =
    | RIdle
    | RLoad                                        // about to load s1
    | RCopy(s1: nat, out: Item, todo: set<nat>)    // words still to be copied out, then load s2
    | RLapped(newest: nat)                         // about to load published_

  datatype Received = Received(position: nat, item: Item)

  /** A consumer handle: absent until make_consumer. start, last and received
      are a log of where it began, its last answer, and the items it was given. */
  datatype Consumer =
    | Absent
    | Present(start: nat, pos: nat, missed: nat, reader: Reader, last: Option<Status>, received: seq<Received>)

  /** started logs every item given to publish, position p at index p - 1; marks
      logs the time of the odd store of each position; now is the clock. */
  datatype State = State(
    capacity: nat,
    words: nat,
    writePos: nat,
    published: nat,
    sequence: seq<nat>,
    data: seq<Item>,
    writer: Writer,
    consumers: seq<Consumer>,
    started: seq<Item>,
    now: nat,
    marks: seq<nat>)

  datatype Action =
    | Tick(d: nat)
    | Publish(item: Item)            // ++write_pos_
    | MarkWriting                    // seq.store((pos << 1) | 1)
    | CopyWord(j: nat)
    | MarkStable                     // seq.store(pos << 1)
    | StorePublished
    | MakeConsumer(c: nat, p: nat)   // relaxed load of published_ returned p
    | ReadCall(c: nat)
    | LoadSequence(c: nat)
    | ReadWord(c: nat, j: nat)
    | LoadAgain(c: nat)
    | LoadPublished(c: nat, p: nat)  // possibly stale load of published_ returned p

  function Init(capacity: nat, words: nat, consumers: nat): State {
    State(capacity, words, 0, 0, seq(capacity, i => 0), seq(capacity, i => Blank(words)), WIdle,
          seq(consumers, i => Absent), [], 0, [])
  }

  predicate Shape(s: State) {
    && s.capacity > 0 && |s.sequence| == s.capacity && |s.data| == s.capacity
    && forall i :: 0 <= i < s.capacity ==> |s.data[i]| == s.words
  }

  predicate HasReader(s: State, c: nat) {
    c < |s.consumers| && s.consumers[c].Present?
  }

  predicate Enabled(s: State, a: Action) {
    && Shape(s)
    && match a
       case Tick(_) => true
       case Publish(item) => s.writer.WIdle? && |item| == s.words
       case MarkWriting => s.writer.WStarted?
       case CopyWord(j) => s.writer.WWriting? && j in s.writer.todo && j < s.words && j < |s.writer.item|
       case MarkStable => s.writer.WWriting? && s.writer.todo == {}
       case StorePublished => s.writer.WStable?
       case MakeConsumer(c, p) => c < |s.consumers| && s.consumers[c].Absent? && p <= s.published
       case ReadCall(c) => HasReader(s, c) && s.consumers[c].reader.RIdle?
       case LoadSequence(c) => HasReader(s, c) && s.consumers[c].reader.RLoad?
       case ReadWord(c, j) =>
         && HasReader(s, c) && s.consumers[c].reader.RCopy?
         && j in s.consumers[c].reader.todo && j < s.words && j < |s.consumers[c].reader.out|
       case LoadAgain(c) => HasReader(s, c) && s.consumers[c].reader.RCopy? && s.consumers[c].reader.todo == {}
       case LoadPublished(c, p) => HasReader(s, c) && s.consumers[c].reader.RLapped? && p <= s.published
  }

  /** Where lapped_to resumes, given the published_ it loaded. */
  function Resume(pos: nat, newest: nat, published: nat, capacity: nat): nat {
    var target := if published > capacity then published - capacity + 1 else 1;
    if target <= pos then newest else target
  }

  function WriterStep(s: State, a: Action): State
    requires Enabled(s, a)
  {
    var w := s.writer;
    match a
    case Publish(item) =>
      s.(writePos := s.writePos + 1, writer := WStarted(s.writePos + 1, item), started := s.started + [item])
    case MarkWriting =>
      s.(sequence := s.sequence[Slot(w.pos, s.capacity) := 2 * w.pos + 1],
         writer := WWriting(w.pos, w.item, AllWords(s.words)), marks := s.marks + [s.now])
    case CopyWord(j) =>
      var i := Slot(w.pos, s.capacity);
      s.(data := s.data[i := s.data[i][j := w.item[j]]], writer := WWriting(w.pos, w.item, w.todo - {j}))
    case MarkStable =>
      s.(sequence := s.sequence[Slot(w.pos, s.capacity) := 2 * w.pos], writer := WStable(w.pos))
    case StorePublished => s.(published := w.pos, writer := WIdle)
    case _ => s
  }

  function Answer(k: Consumer, status: Status): (r: Consumer)
    requires k.Present?
    ensures r.Present? && r.pos == k.pos && r.start == k.start && r.missed == k.missed && r.received == k.received
  {
    k.(reader := RIdle, last := Some(status))
  }

  /** The consumer after its step; it never changes anything but itself. */
  function Reading(s: State, a: Action): Consumer
    requires Enabled(s, a)
    requires a.MakeConsumer? || a.ReadCall? || a.LoadSequence? || a.ReadWord? || a.LoadAgain? || a.LoadPublished?
  {
    var k := s.consumers[a.c];
    match a
    case MakeConsumer(_, p) => Present(p + 1, p + 1, 0, RIdle, None, [])
    case ReadCall(_) => k.(reader := RLoad)
    case LoadSequence(_) =>
      var s1 := s.sequence[Slot(k.pos, s.capacity)];
      if s1 % 2 == 1 then Answer(k, Empty)
      else if s1 / 2 < k.pos then Answer(k, Empty)
      else if s1 / 2 > k.pos then k.(reader := RLapped(s1 / 2))
      else k.(reader := RCopy(s1, Blank(s.words), AllWords(s.words)))
    case ReadWord(_, j) =>
      var r := k.reader;
      k.(reader := RCopy(r.s1, r.out[j := s.data[Slot(k.pos, s.capacity)][j]], r.todo - {j}))
    case LoadAgain(_) =>
      var s2 := s.sequence[Slot(k.pos, s.capacity)];
      if s2 != k.reader.s1 then k.(reader := RLapped(s2 / 2))
      else Answer(k, Status.Ok).(pos := k.pos + 1, received := k.received + [Received(k.pos, k.reader.out)])
    case LoadPublished(_, p) =>
      var target := Resume(k.pos, k.reader.newest, p, s.capacity);
      if target > k.pos then Answer(k, Lapped).(pos := target, missed := k.missed + (target - k.pos))
      else Answer(k, Lapped)
  }

  predicate OfConsumer(a: Action) {
    a.MakeConsumer? || a.ReadCall? || a.LoadSequence? || a.ReadWord? || a.LoadAgain? || a.LoadPublished?
  }

  function Apply(s: State, a: Action): State {
    if !Enabled(s, a) then s
    else if a.Tick? then s.(now := s.now + a.d)
    else if OfConsumer(a) then s.(consumers := s.consumers[a.c := Reading(s, a)])
    else WriterStep(s, a)
  }

  function Run(s: State, acts: seq<Action>): State {
    if acts == [] then s else Apply(Run(s, acts[..|acts| - 1]), acts[|acts| - 1])
  }
}
