/** The frame slot of the shared-memory transport as interleaved atomic word
    accesses of two processes, under sequential consistency. Copies move their
    words in any order. The last word of the 16-byte ACK lies on the slot word,
    so copying an ACK briefly stores SLOT_EMPTY there. */
module FrameSlot {
  import opened Bytes
  import opened SharedMemory

  datatype Slot = SlotEmpty | SlotFrame | SlotAck | SlotConsumed

  /** Descriptor count, four descriptors and the 28-byte header, in words. */
  const FRAME_WORDS: nat := 12
  const ACK_WORDS: nat := 3
  const ACK_PAD: nat := 3

  datatype Producer =
    | Ready
    | Writing(frame: seq<int>, todo: set<nat>)
    | Taking(todo: set<nat>, got: seq<int>)

  datatype Consumer =
    | Watching
    | Reading(todo: set<nat>, got: seq<int>)
    | Holding
    | Acking(ack: seq<int>, todo: set<nat>)
    | Gone

  /** outstanding: a frame was sent whose ACK the producer has not read. sent,
      seen (None for a frame dropped unread), answered, read: the history. */
  datatype State = State(
    slot: Slot, area: seq<int>, ackArea: seq<int>, prod: Producer, cons: Consumer, outstanding: bool,
    sent: seq<seq<int>>, seen: seq<Option<seq<int>>>, answered: seq<seq<int>>, read: seq<seq<int>>)

  datatype Action =
    | StartSend(frame: seq<int>) | WriteWord(i: nat) | Publish
    | SeeAck | ReadAckWord(i: nat) | FinishAck
    | SeeFrame | ReadWord(i: nat) | FinishRead | RefuseCount | FailSteal | Drop
    | StartAck(ack: seq<int>) | AckWord(i: nat) | FinishSendAck

  /** The first word counts the descriptors. */
  predicate GoodCount(frame: seq<int>) {
    frame != [] && 1 <= frame[0] <= 4
  }

  function Zeros(n: nat): seq<int> {
    seq(n, i => 0)
  }

  /** patient: the producer waits for the ACK of a frame before the next. */
  predicate Enabled(s: State, a: Action, patient: bool) {
    match a
    case StartSend(frame) =>
      && s.prod.Ready? && (s.slot == SlotEmpty || s.slot == SlotAck)
      && |frame| == FRAME_WORDS && GoodCount(frame) && (patient ==> !s.outstanding)
    case WriteWord(i) => s.prod.Writing? && i in s.prod.todo && i < |s.area| && i < |s.prod.frame|
    case Publish => s.prod.Writing? && s.prod.todo == {}
    case SeeAck => s.prod.Ready? && s.slot == SlotAck
    case ReadAckWord(i) => s.prod.Taking? && i in s.prod.todo && i < |s.ackArea| && i < |s.prod.got|
    case FinishAck => s.prod.Taking? && s.prod.todo == {}
    case SeeFrame => s.cons.Watching? && s.slot == SlotFrame
    case ReadWord(i) => s.cons.Reading? && i in s.cons.todo && i < |s.area| && i < |s.cons.got|
    case FinishRead => s.cons.Reading? && s.cons.todo == {} && GoodCount(s.cons.got)
    case RefuseCount => s.cons.Reading? && s.cons.todo == {} && !GoodCount(s.cons.got)
    case FailSteal => s.cons.Reading? && s.cons.todo == {} && GoodCount(s.cons.got)
    case Drop => s.cons.Watching? && s.slot == SlotFrame
    case StartAck(ack) => s.cons.Holding? && |ack| == ACK_WORDS
    case AckWord(i) => s.cons.Acking? && i in s.cons.todo && (i == ACK_PAD || (i < |s.ackArea| && i < |s.cons.ack|))
    case FinishSendAck => s.cons.Acking? && s.cons.todo == {}
  }

  function Next(s: State, a: Action): State
    requires Enabled(s, a, false)
  {
    match a
    case StartSend(frame) => s.(prod := Writing(frame, Words(|frame|)))
    case WriteWord(i) => s.(area := s.area[i := s.prod.frame[i]], prod := Writing(s.prod.frame, s.prod.todo - {i}))
    case Publish => s.(slot := SlotFrame, prod := Ready, outstanding := true, sent := s.sent + [s.prod.frame])
    case SeeAck => s.(prod := Taking(Words(|s.ackArea|), Zeros(ACK_WORDS)))
    case ReadAckWord(i) => s.(prod := Taking(s.prod.todo - {i}, s.prod.got[i := s.ackArea[i]]))
    case FinishAck => s.(slot := SlotEmpty, prod := Ready, outstanding := false, read := s.read + [s.prod.got])
    case SeeFrame => s.(cons := Reading(Words(|s.area|), Zeros(FRAME_WORDS)))
    case ReadWord(i) => s.(cons := Reading(s.cons.todo - {i}, s.cons.got[i := s.area[i]]))
    case FinishRead => s.(slot := SlotConsumed, cons := Holding, seen := s.seen + [Some(s.cons.got)])
    case RefuseCount => s.(slot := SlotEmpty, cons := Gone)
    case FailSteal => s.(cons := Gone)
    case Drop => s.(slot := SlotEmpty, cons := Holding, seen := s.seen + [None])
    case StartAck(ack) => s.(cons := Acking(ack, Words(|ack|) + {ACK_PAD}))
    case AckWord(i) =>
      if i == ACK_PAD then s.(slot := SlotEmpty, cons := Acking(s.cons.ack, s.cons.todo - {i}))
      else s.(ackArea := s.ackArea[i := s.cons.ack[i]], cons := Acking(s.cons.ack, s.cons.todo - {i}))
    case FinishSendAck => s.(slot := SlotAck, cons := Watching, answered := s.answered + [s.cons.ack])
  }

  const START: State := State(SlotEmpty, Zeros(FRAME_WORDS), Zeros(ACK_WORDS), Ready, Watching, false, [], [], [], [])

  // ----- Any producer -----

  predicate Sane(s: State) {
    && |s.area| == FRAME_WORDS && |s.ackArea| == ACK_WORDS
    && (s.prod.Writing? ==>
          s.slot != SlotFrame && |s.prod.frame| == FRAME_WORDS && GoodCount(s.prod.frame)
              && Copied(s.prod.frame, s.area, s.prod.todo, FRAME_WORDS))
    && (s.prod.Taking? ==> s.slot != SlotFrame && |s.prod.got| == ACK_WORDS)
    && (s.cons.Reading? ==>
          s.slot == SlotFrame && |s.cons.got| == FRAME_WORDS && Copied(s.area, s.cons.got, s.cons.todo, FRAME_WORDS))
    && (s.cons.Acking? ==> |s.cons.ack| == ACK_WORDS)
    && (s.slot == SlotFrame ==> s.sent != [] && s.area == s.sent[|s.sent| - 1])
    && (forall k | 0 <= k < |s.seen| && s.seen[k].Some? :: s.seen[k].value in s.sent)
    && (forall k | 0 <= k < |s.sent| :: GoodCount(s.sent[k]))
  }

  lemma SaneStep(s: State, a: Action)
    requires Sane(s) && Enabled(s, a, false)
    ensures Sane(Next(s, a))
  {
    match a
    case Publish => CopiedAll(s.prod.frame, s.area);
    case FinishRead => CopiedAll(s.area, s.cons.got);
    case RefuseCount => CopiedAll(s.area, s.cons.got);
    case _ =>
  }

  ghost predicate Run(states: seq<State>, actions: seq<Action>, patient: bool) {
    && |states| == |actions| + 1 && states[0] == START
    && forall k | 0 <= k < |actions| ::
         Enabled(states[k], actions[k], patient) && states[k + 1] == Next(states[k], actions[k])
  }

  lemma {:induction false} RunSane(states: seq<State>, actions: seq<Action>, patient: bool, k: nat)
    requires Run(states, actions, patient) && k < |states|
    ensures Sane(states[k])
  {
    if k > 0 {
      RunSane(states, actions, patient, k - 1);
      SaneStep(states[k - 1], actions[k - 1]);
    }
  }

  /** Under every interleaving, patient or not: the consumer never reads words
      that the producer is writing, and what it takes is some frame sent, whole. */
  lemma ExclusiveAndWhole(states: seq<State>, actions: seq<Action>, patient: bool, k: nat)
    requires Run(states, actions, patient) && k < |states|
    ensures !(states[k].cons.Reading? && states[k].prod.Writing?)
    ensures forall j | 0 <= j < |states[k].seen| && states[k].seen[j].Some? :: states[k].seen[j].value in states[k].sent
  {
    RunSane(states, actions, patient, k);
  }

  /** And its descriptor count is never refused. */
  lemma CountNeverRefused(states: seq<State>, actions: seq<Action>, patient: bool, k: nat)
    requires Run(states, actions, patient) && k < |actions|
    ensures actions[k] != RefuseCount
  {
    RunSane(states, actions, patient, k);
    if states[k].cons.Reading? && states[k].cons.todo == {} {
      TakenIsGood(states[k]);
    }
  }

  // ----- A patient producer -----

  /** Frames seen so far are the first ones sent, in order, each whole. */
  predicate InOrder(s: State) {
    |s.seen| <= |s.sent| && forall k | 0 <= k < |s.seen| && s.seen[k].Some? :: s.seen[k].value == s.sent[k]
  }

  /** Where a frame and its ACK are. */
  predicate Stage(s: State) {
    if !s.outstanding then
      && s.slot == SlotEmpty && s.cons.Watching? && !s.prod.Taking?
      && |s.seen| == |s.sent| == |s.answered|
    else if s.slot == SlotFrame then
      && s.prod.Ready? && (s.cons.Watching? || s.cons.Reading? || s.cons.Gone?)
      && |s.seen| + 1 == |s.sent| && |s.answered| + 1 == |s.sent|
    else if s.slot == SlotAck then
      && !s.prod.Writing? && s.cons.Watching? && |s.seen| == |s.sent| == |s.answered|
      && s.answered != [] && s.ackArea == s.answered[|s.answered| - 1]
    else
      && s.prod.Ready? && (s.cons.Holding? || s.cons.Acking?) && |s.seen| == |s.sent| && |s.answered| + 1 == |s.sent|
  }

  predicate Orderly(s: State) {
    && Sane(s) && InOrder(s) && Stage(s)
    && s.read == s.answered[..if s.outstanding && |s.answered| == |s.sent| then |s.answered| - 1 else |s.answered|]
    && (s.cons.Acking? ==> Copied(s.cons.ack, s.ackArea, s.cons.todo - {ACK_PAD}, ACK_WORDS))
    && (s.prod.Taking? ==> Copied(s.ackArea, s.prod.got, s.prod.todo, ACK_WORDS))
    && (s.sent == [] ==> !s.outstanding)
  }

  lemma OrderlyStep(s: State, a: Action)
    requires Orderly(s) && Enabled(s, a, true)
    ensures Orderly(Next(s, a))
  {
    SaneStep(s, a);
    hide Sane;
    match a
    case FinishRead => OrderlyRead(s);
    case RefuseCount => TakenIsGood(s);
    case FinishSendAck => OrderlyAnswer(s);
    case FinishAck => OrderlyTake(s);
    case _ => OrderlyRest(s, a);
  }

  lemma OrderlyRead(s: State)
    requires Orderly(s) && Enabled(s, FinishRead, true) && Sane(Next(s, FinishRead))
    ensures Orderly(Next(s, FinishRead))
  {
    CopiedAll(s.area, s.cons.got);
  }

  /** What was read whole has a good count. */
  lemma TakenIsGood(s: State)
    requires Sane(s) && s.cons.Reading? && s.cons.todo == {}
    ensures GoodCount(s.cons.got)
  {
    CopiedAll(s.area, s.cons.got);
  }

  lemma OrderlyAnswer(s: State)
    requires Orderly(s) && Enabled(s, FinishSendAck, true) && Sane(Next(s, FinishSendAck))
    ensures Orderly(Next(s, FinishSendAck))
  {
    CopiedAll(s.cons.ack, s.ackArea);
  }

  lemma OrderlyTake(s: State)
    requires Orderly(s) && Enabled(s, FinishAck, true) && Sane(Next(s, FinishAck))
    ensures Orderly(Next(s, FinishAck))
  {
    CopiedAll(s.ackArea, s.prod.got);
  }

  lemma OrderlyRest(s: State, a: Action)
    requires Orderly(s) && Enabled(s, a, true) && Sane(Next(s, a))
    requires !a.FinishRead? && !a.RefuseCount? && !a.FinishSendAck? && !a.FinishAck?
    ensures Orderly(Next(s, a))
  {
  }

  lemma {:induction false} RunOrderly(states: seq<State>, actions: seq<Action>, k: nat)
    requires Run(states, actions, true) && k < |states|
    ensures Orderly(states[k])
  {
    if k > 0 {
      RunOrderly(states, actions, k - 1);
      OrderlyStep(states[k - 1], actions[k - 1]);
    }
  }

  /** The k-th frame taken is the k-th sent, and the ACKs read are the ACKs
      given, one for each frame, in order. */
  lemma FramesAndAcksMatch(states: seq<State>, actions: seq<Action>, k: nat)
    requires Run(states, actions, true) && k < |states|
    ensures InOrder(states[k]) && |states[k].sent| <= |states[k].seen| + 1
    ensures states[k].read <= states[k].answered && |states[k].answered| <= |states[k].seen|
    ensures |states[k].read| + (if states[k].outstanding then 1 else 0) == |states[k].sent|
  {
    RunOrderly(states, actions, k);
  }

  /** Storing SLOT_ACK never overwrites a frame nobody has seen. A producer that
      did not wait could publish one between the pad store and this one. */
  lemma AckOverwritesNoFrame(states: seq<State>, actions: seq<Action>, k: nat)
    requires Run(states, actions, true) && k < |states| && states[k].cons.Acking?
    ensures states[k].slot != SlotFrame
  {
    RunOrderly(states, actions, k);
  }

  /** If one did, its frame is gone: not taken, and no longer in the slot. */
  lemma ImpatienceLosesFrame(s: State)
    requires Sane(s) && s.cons.Acking? && s.cons.todo == {} && s.slot == SlotEmpty
    requires s.prod.Writing? && s.prod.todo == {}
    ensures Enabled(s, Publish, false) && Enabled(Next(s, Publish), FinishSendAck, false)
    ensures var t := Next(Next(s, Publish), FinishSendAck);
            |t.sent| == |s.sent| + 1 && t.seen == s.seen && t.slot != SlotFrame && t.prod.Ready? && t.cons.Watching?
  {
  }
}
