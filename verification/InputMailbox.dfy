/** The one-slot input mailbox of the shared-memory transport as interleaved
    atomic steps of a sender and a receiver, under sequential consistency. The
    sender gives up when the slot stays full: after the first look at it, or for
    state and overlay events after 51 more; and when it finds the receiver gone,
    at the start or after waiting. */
module InputMailbox {
  import opened SharedMemory

  /** The 20-byte event, in words. */
  const EVENT_WORDS: nat := 5
  const SPIN_LIMIT: nat := 50

  /** A send under way has noted what each look at the slot found: was it full? */
  datatype Sender =
    | Ready
    | Looking(event: seq<int>, critical: bool, found: seq<bool>)
    | Checking(event: seq<int>, critical: bool, found: seq<bool>)
    | Writing(event: seq<int>, critical: bool, found: seq<bool>, todo: set<nat>)

  datatype Receiver = Waiting | Reading(todo: set<nat>, got: seq<int>)

  /** Success, EAGAIN or ECONNRESET. */
  datatype Result = Done | Full | Gone

  /** A send that has returned. */
  datatype Sent = Sent(event: seq<int>, critical: bool, found: seq<bool>, result: Result)

  /** left: the receiver's state word says it is gone. The sends returned and the
      events delivered since the last reset. */
  datatype State = State(full: bool, left: bool, area: seq<int>, sender: Sender, receiver: Receiver, log: seq<Sent>,
                         delivered: seq<seq<int>>)

  datatype Action =
    | Send(event: seq<int>, critical: bool) | Look | Check | WriteWord(i: nat) | Publish
    | See | ReadWord(i: nat) | FinishRead | Leave | Reset

  predicate Enabled(s: State, a: Action) {
    match a
    case Send(event, _) => s.sender.Ready? && |event| == EVENT_WORDS
    case Look => s.sender.Looking?
    case Check => s.sender.Checking?
    case WriteWord(i) => s.sender.Writing? && i in s.sender.todo && i < |s.area| && i < |s.sender.event|
    case Publish => s.sender.Writing? && s.sender.todo == {}
    case See => s.receiver.Waiting? && s.full
    case ReadWord(i) => s.receiver.Reading? && i in s.receiver.todo && i < |s.area| && i < |s.receiver.got|
    case FinishRead => s.receiver.Reading? && s.receiver.todo == {}
    case Leave => s.receiver.Waiting?
    case Reset => s.receiver.Waiting?
  }

  function Returned(s: State, event: seq<int>, critical: bool, found: seq<bool>, result: Result): State {
    s.(sender := Ready, log := s.log + [Sent(event, critical, found, result)])
  }

  /** One look at the slot: empty, start writing, or check again for the receiver
      after a wait; full, refuse or look again. */
  function Looked(s: State): State
    requires s.sender.Looking?
  {
    var l := s.sender;
    var found := l.found + [s.full];
    if !s.full then
      if l.found == [] then s.(sender := Writing(l.event, l.critical, found, Words(|l.event|)))
      else s.(sender := Checking(l.event, l.critical, found))
    else if !l.critical || |l.found| > SPIN_LIMIT then Returned(s, l.event, l.critical, found, Full)
    else s.(sender := Looking(l.event, true, found))
  }

  function Next(s: State, a: Action): State
    requires Enabled(s, a)
  {
    match a
    case Send(event, critical) =>
      if s.left then Returned(s, event, critical, [], Gone) else s.(sender := Looking(event, critical, []))
    case Look => Looked(s)
    case Check =>
      if s.left then Returned(s, s.sender.event, s.sender.critical, s.sender.found, Gone)
      else s.(sender := Writing(s.sender.event, s.sender.critical, s.sender.found, Words(|s.sender.event|)))
    case WriteWord(i) =>
      s.(area := s.area[i := s.sender.event[i]], sender := s.sender.(todo := s.sender.todo - {i}))
    case Publish => Returned(s, s.sender.event, s.sender.critical, s.sender.found, Done).(full := true)
    case See => s.(receiver := Reading(Words(|s.area|), seq(EVENT_WORDS, i => 0)))
    case ReadWord(i) => s.(receiver := Reading(s.receiver.todo - {i}, s.receiver.got[i := s.area[i]]))
    case FinishRead => s.(full := false, receiver := Waiting, delivered := s.delivered + [s.receiver.got])
    case Leave => s.(left := true)
    case Reset => s.(full := false, left := false, log := [], delivered := [])
  }

  function Start(): State {
    State(false, false, seq(EVENT_WORDS, i => 0), Ready, Waiting, [], [])
  }

  /** The events of the sends that returned success, in order. */
  function Accepted(log: seq<Sent>): seq<seq<int>> {
    if log == [] then []
    else Accepted(log[..|log| - 1]) + if log[|log| - 1].result == Done then [log[|log| - 1].event] else []
  }

  lemma AcceptedSnoc(log: seq<Sent>, last: Sent)
    ensures Accepted(log + [last]) == Accepted(log) + if last.result == Done then [last.event] else []
  {
    assert (log + [last])[..|log|] == log;
  }

  /** How often a send looks at a full slot before it gives up. */
  function Patience(critical: bool): nat {
    if critical then SPIN_LIMIT + 2 else 1
  }

  predicate AllFull(found: seq<bool>) {
    forall k | 0 <= k < |found| :: found[k]
  }

  /** Full at every look but the last. */
  predicate FoundEmpty(critical: bool, found: seq<bool>) {
    0 < |found| <= Patience(critical) && AllFull(found[..|found| - 1]) && !found[|found| - 1]
  }

  /** What a send must have found to return as it did. */
  predicate Justified(e: Sent) {
    match e.result
    case Done => FoundEmpty(e.critical, e.found)
    case Full => |e.found| == Patience(e.critical) && AllFull(e.found)
    case Gone => e.found == [] || (|e.found| > 1 && FoundEmpty(e.critical, e.found))
  }

  /** Delivered events, then the one in the slot, are those of the sends that
      returned success. */
  predicate Conserved(s: State) {
    Accepted(s.log) == s.delivered + if s.full then [s.area] else []
  }

  predicate LogFits(s: State) {
    forall k | 0 <= k < |s.log| :: Justified(s.log[k]) && (s.log[k].result == Gone ==> s.left)
  }

  predicate SenderFits(s: State) {
    match s.sender
    case Ready => true
    case Looking(event, critical, found) =>
      |event| == EVENT_WORDS && |found| < Patience(critical) && AllFull(found)
    case Checking(event, critical, found) =>
      |event| == EVENT_WORDS && |found| > 1 && FoundEmpty(critical, found) && !s.full
    case Writing(event, critical, found, todo) =>
      !s.full && |event| == EVENT_WORDS && Copied(event, s.area, todo, EVENT_WORDS) && FoundEmpty(critical, found)
  }

  predicate Inv(s: State) {
    && |s.area| == EVENT_WORDS && Conserved(s) && LogFits(s) && SenderFits(s)
    && (s.receiver.Reading? ==>
          s.full && |s.receiver.got| == EVENT_WORDS && Copied(s.area, s.receiver.got, s.receiver.todo, EVENT_WORDS))
  }

  /** Returning adds one justified entry. */
  lemma ReturnStep(s: State, event: seq<int>, critical: bool, found: seq<bool>, result: Result)
    requires LogFits(s) && Justified(Sent(event, critical, found, result)) && (result == Gone ==> s.left)
    ensures var t := Returned(s, event, critical, found, result);
            LogFits(t) && Accepted(t.log) == Accepted(s.log) + if result == Done then [event] else []
  {
    AcceptedSnoc(s.log, Sent(event, critical, found, result));
  }

  lemma Step(s: State, a: Action)
    requires Inv(s) && Enabled(s, a)
    ensures Inv(Next(s, a))
  {
    match a
    case Send(event, critical) => SendStep(s, event, critical);
    case Look => LookStep(s);
    case Check => CheckStep(s);
    case WriteWord(i) => WriteStep(s, i);
    case Publish => PublishStep(s);
    case FinishRead => FinishStep(s);
    case _ =>
  }

  lemma SendStep(s: State, event: seq<int>, critical: bool)
    requires Inv(s) && Enabled(s, Send(event, critical))
    ensures Inv(Next(s, Send(event, critical)))
  {
    if s.left {
      ReturnStep(s, event, critical, [], Gone);
      hide Returned, LogFits;
    }
  }

  lemma CheckStep(s: State)
    requires Inv(s) && s.sender.Checking?
    ensures Inv(Next(s, Check))
  {
    if s.left {
      ReturnStep(s, s.sender.event, s.sender.critical, s.sender.found, Gone);
    }
  }

  lemma WriteStep(s: State, i: nat)
    requires Inv(s) && Enabled(s, WriteWord(i))
    ensures Inv(Next(s, WriteWord(i)))
  {
    CopiedOne(s.sender.event, s.area, s.sender.todo, EVENT_WORDS, i);
    hide Copied, LogFits;
  }

  lemma PublishStep(s: State)
    requires Inv(s) && Enabled(s, Publish)
    ensures Inv(Next(s, Publish))
  {
    CopiedAll(s.sender.event, s.area);
    ReturnStep(s, s.sender.event, s.sender.critical, s.sender.found, Done);
  }

  lemma FinishStep(s: State)
    requires Inv(s) && Enabled(s, FinishRead)
    ensures Inv(Next(s, FinishRead))
  {
    CopiedAll(s.area, s.receiver.got);
  }

  lemma LooksOn(found: seq<bool>, full: bool)
    requires AllFull(found)
    ensures AllFull((found + [full])[..|found|]) && (full ==> AllFull(found + [full]))
  {
    assert (found + [full])[..|found|] == found;
  }

  lemma LookStep(s: State)
    requires Inv(s) && s.sender.Looking?
    ensures Inv(Looked(s))
  {
    var l := s.sender;
    var found := l.found + [s.full];
    LooksOn(l.found, s.full);
    hide AllFull;
    if s.full && (!l.critical || |l.found| > SPIN_LIMIT) {
      ReturnStep(s, l.event, l.critical, found, Full);
    }
  }

  ghost predicate Run(states: seq<State>, actions: seq<Action>) {
    && |states| == |actions| + 1 && states[0] == Start()
    && forall k | 0 <= k < |actions| :: Enabled(states[k], actions[k]) && states[k + 1] == Next(states[k], actions[k])
  }

  lemma {:induction false} RunKeeps(states: seq<State>, actions: seq<Action>, k: nat)
    requires Run(states, actions) && k < |states|
    ensures Inv(states[k])
  {
    if k > 0 {
      RunKeeps(states, actions, k - 1);
      Step(states[k - 1], actions[k - 1]);
    }
  }

  /** Exactly once and in order: since the last reset, what was delivered and
      then what lies in the slot is what the successful sends carried, and nothing
      of the refused ones; and nobody reads an event that is being written. */
  lemma ExactlyOnceInOrder(states: seq<State>, actions: seq<Action>, k: nat)
    requires Run(states, actions) && k < |states|
    ensures Conserved(states[k]) && !(states[k].sender.Writing? && states[k].receiver.Reading?)
  {
    RunKeeps(states, actions, k);
  }

  /** In every run a send fails with EAGAIN exactly if it found the slot full at its
      one look or, for state and overlay events, at all of its 52; and with
      ECONNRESET only after the receiver left. */
  lemma RefusedIff(states: seq<State>, actions: seq<Action>, k: nat, j: nat)
    requires Run(states, actions) && k < |states| && j < |states[k].log|
    ensures var e := states[k].log[j];
            && (e.result == Full <==> |e.found| == Patience(e.critical) && AllFull(e.found))
            && (e.result == Gone ==> states[k].left)
  {
    RunKeeps(states, actions, k);
    assert Justified(states[k].log[j]);
  }

  /** A send that starts after the receiver left fails at once, until a reset. */
  lemma GoneRefusesAll(states: seq<State>, actions: seq<Action>, i: nat, k: nat)
    requires Run(states, actions) && i <= k < |actions| && states[i].left && actions[k].Send?
    requires forall m | i <= m < k :: actions[m] != Reset
    ensures states[k + 1].sender.Ready?
    ensures states[k + 1].log == states[k].log + [Sent(actions[k].event, actions[k].critical, [], Gone)]
  {
    StaysGone(states, actions, i, k);
  }

  lemma {:induction false} StaysGone(states: seq<State>, actions: seq<Action>, i: nat, k: nat)
    requires Run(states, actions) && i <= k < |states| && states[i].left
    requires forall m | i <= m < k :: actions[m] != Reset
    ensures states[k].left
    decreases k
  {
    if i < k {
      StaysGone(states, actions, i, k - 1);
    }
  }
}
