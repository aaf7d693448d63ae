/** The cursor seqlock of the shared-memory transport as interleaved byte
    accesses of one writer and one reader, under sequential consistency and a
    counter that does not wrap. The writer may stop halfway and start anew. */
module CursorSeqlock {
  import opened Bytes
  import opened SharedMemory

  const HEADER_BYTES: nat := 24
  const CURSOR_CAPACITY: nat := 262144
  const CURSOR_MAGIC: nat := 0x52554B49
  const CURSOR_VERSION: nat := 1
  const MAX_DIM: nat := 256
  const SHAPE_DEFAULT: nat := 1
  const SHAPE_ALL_RESIZE: nat := 36
  const SHAPE_CUSTOM: nat := 255
  const ATTEMPTS: nat := 3

  // ----- The header -----

  function U16At(b: seq<byte>, at: nat): nat
    requires at + 2 <= |b|
  {
    b[at] as nat + 256 * (b[at + 1] as nat)
  }

  function DataSize(h: seq<byte>): nat
    requires |h| == HEADER_BYTES
  {
    U32At(h, 20)
  }

  /** cursor_valid. */
  predicate CursorValid(h: seq<byte>, capacity: nat)
    requires |h| == HEADER_BYTES
  {
    var visible, shape, width, height := h[5] as nat, h[6] as nat, U16At(h, 8), U16At(h, 10);
    && U32At(h, 0) == CURSOR_MAGIC && h[4] as nat == CURSOR_VERSION && visible <= 1
    && DataSize(h) <= MAX_DIM * MAX_DIM * 4 && DataSize(h) <= capacity
    && if visible == 0 then DataSize(h) == 0
       else if shape == SHAPE_CUSTOM then
         0 < width <= MAX_DIM && 0 < height <= MAX_DIM && DataSize(h) == width * height * 4
       else SHAPE_DEFAULT <= shape <= SHAPE_ALL_RESIZE && width == 0 && height == 0 && DataSize(h) == 0
  }

  datatype Update = Update(header: seq<byte>, pixels: seq<byte>) {
    predicate Shaped() {
      |header| == HEADER_BYTES && |pixels| == DataSize(header) <= CURSOR_CAPACITY
    }

    predicate Valid() {
      Shaped() && CursorValid(header, CURSOR_CAPACITY)
    }
  }

  // ----- States and steps -----

  datatype Writer = Idle | Storing(base: nat, update: Update, todoHeader: set<nat>, todoPixels: set<nat>)

  datatype Reader =
    | Resting
    | CopyingHeader(v: nat, attempt: nat, todo: set<nat>, got: seq<byte>)
    | CopyingPixels(v: nat, attempt: nat, header: seq<byte>, todo: set<nat>, got: seq<byte>)

  /** versions: the update completed at each counter value; delivered: what the
      reader returned 1 for. */
  datatype State = State(
    counter: nat, header: seq<byte>, data: seq<byte>, writer: Writer, reader: Reader, lastSeen: nat, capacity: nat,
    versions: map<nat, Update>, delivered: seq<(nat, Update)>)

  datatype Action =
    | Begin(update: Update) | StoreHeader(i: nat) | StorePixel(i: nat) | Finish | Stop
    | Load | CopyHeader(i: nat) | Check(hasBuffer: bool) | CopyPixel(i: nat) | Recheck

  function Zeros(n: nat): seq<byte> {
    seq(n, i => 0)
  }

  predicate Enabled(s: State, a: Action) {
    match a
    case Begin(update) => s.writer.Idle? && update.Valid()
    case StoreHeader(i) => s.writer.Storing? && i in s.writer.todoHeader && i < |s.header|
        && i < |s.writer.update.header|
    case StorePixel(i) => s.writer.Storing? && i in s.writer.todoPixels && i < |s.data| && i < |s.writer.update.pixels|
    case Finish => s.writer.Storing? && s.writer.todoHeader == {} && s.writer.todoPixels == {}
    case Stop => s.writer.Storing?
    case Load => s.reader.Resting?
    case CopyHeader(i) => s.reader.CopyingHeader? && i in s.reader.todo && i < |s.header| && i < |s.reader.got|
    case Check(_) => s.reader.CopyingHeader? && s.reader.todo == {} && |s.reader.got| == HEADER_BYTES
    case CopyPixel(i) => s.reader.CopyingPixels? && i in s.reader.todo && i < |s.data| && i < |s.reader.got|
    case Recheck => s.reader.CopyingPixels? && s.reader.todo == {}
  }

  /** The first load of an attempt: nothing new, or a header to copy. */
  function Loaded(s: State, attempt: nat): Reader {
    if s.counter == 0 || s.counter == s.lastSeen || s.counter % 2 == 1 || attempt >= ATTEMPTS then Resting
    else CopyingHeader(s.counter, attempt, Words(|s.header|), Zeros(HEADER_BYTES))
  }

  /** The counter turns odd, past any value a writer that stopped has left. */
  function Began(s: State, update: Update): State {
    var base := if s.counter % 2 == 1 then s.counter + 1 else s.counter;
    s.(counter := base + 1, writer := Storing(base, update, Words(|update.header|), Words(|update.pixels|)))
  }

  function Next(s: State, a: Action): State
    requires Enabled(s, a)
  {
    match a
    case Begin(update) => Began(s, update)
    case StoreHeader(i) =>
      s.(header := s.header[i := s.writer.update.header[i]],
         writer := s.writer.(todoHeader := s.writer.todoHeader - {i}))
    case StorePixel(i) =>
      s.(data := s.data[i := s.writer.update.pixels[i]],
         writer := s.writer.(todoPixels := s.writer.todoPixels - {i}))
    case Finish =>
      var v := s.writer.base + 2;
      s.(counter := v, writer := Idle, versions := s.versions[v := s.writer.update])
    case Stop => s.(writer := Idle)
    case Load => s.(reader := Loaded(s, 0))
    case CopyHeader(i) =>
      s.(reader := CopyingHeader(s.reader.v, s.reader.attempt, s.reader.todo - {i}, s.reader.got[i := s.header[i]]))
    case Check(hasBuffer) =>
      var r := s.reader;
      if !CursorValid(r.got, s.capacity) || (DataSize(r.got) > 0 && !hasBuffer) then s.(reader := Resting)
      else s.(reader := CopyingPixels(r.v, r.attempt, r.got, Words(DataSize(r.got)), Zeros(DataSize(r.got))))
    case CopyPixel(i) =>
      var r := s.reader;
      s.(reader := CopyingPixels(r.v, r.attempt, r.header, r.todo - {i}, r.got[i := s.data[i]]))
    case Recheck =>
      var r := s.reader;
      if s.counter == r.v then
        s.(reader := Resting, lastSeen := r.v, delivered := s.delivered + [(r.v, Update(r.header, r.got))])
      else s.(reader := Loaded(s, r.attempt + 1))
  }

  function Start(capacity: nat, header: seq<byte>, data: seq<byte>): State {
    State(0, header, data, Idle, Resting, 0, capacity, map[], [])
  }

  // ----- Invariants -----

  predicate Holds(s: State, u: Update) {
    Copied(u.header, s.header, {}, HEADER_BYTES) && Copied(u.pixels, s.data, {}, |u.pixels|)
  }

  predicate WriterOk(s: State) {
    && |s.header| == HEADER_BYTES && |s.data| == CURSOR_CAPACITY
    && (s.writer.Storing? ==>
          && s.writer.base % 2 == 0 && s.counter == s.writer.base + 1 && s.writer.update.Shaped()
          && Copied(s.writer.update.header, s.header, s.writer.todoHeader, HEADER_BYTES)
          && Copied(s.writer.update.pixels, s.data, s.writer.todoPixels, |s.writer.update.pixels|))
    && (s.counter % 2 == 0 && s.counter > 0 ==> s.counter in s.versions && Holds(s, s.versions[s.counter]))
  }

  predicate VersionsOk(s: State) {
    forall v | v in s.versions :: VersionOk(s, v)
  }

  predicate VersionOk(s: State, v: nat)
    requires v in s.versions
  {
    v % 2 == 0 && v <= s.counter && s.versions[v].Shaped()
  }

  /** As long as the counter has not moved, the copy is of the version begun with. */
  predicate ReaderOk(s: State) {
    match s.reader
    case Resting => true
    case CopyingHeader(v, _, todo, got) =>
      && s.lastSeen < v <= s.counter && v % 2 == 0 && v in s.versions && |got| == HEADER_BYTES
      && (s.counter == v ==> Copied(s.header, got, todo, HEADER_BYTES))
    case CopyingPixels(v, _, header, todo, got) =>
      && s.lastSeen < v <= s.counter && v % 2 == 0 && v in s.versions
      && |header| == HEADER_BYTES && CursorValid(header, s.capacity) && |got| == DataSize(header)
      && (s.counter == v ==> header == s.versions[v].header && Copied(s.data, got, todo, |got|))
  }

  predicate DeliveredOk(s: State) {
    && s.lastSeen <= s.counter
    && (forall k | 0 <= k < |s.delivered| ::
          s.delivered[k].0 in s.versions && s.delivered[k].1 == s.versions[s.delivered[k].0]
              && s.delivered[k].0 <= s.lastSeen)
    && (forall j, k | 0 <= j < k < |s.delivered| :: s.delivered[j].0 < s.delivered[k].0)
  }

  predicate Inv(s: State) {
    WriterOk(s) && VersionsOk(s) && ReaderOk(s) && DeliveredOk(s)
  }

  lemma VersionsStay(s: State, t: State)
    requires VersionsOk(s) && t.versions == s.versions && s.counter <= t.counter
    ensures VersionsOk(t)
  {
    forall v | v in t.versions ensures VersionOk(t, v) {
      assert VersionOk(s, v);
    }
  }

  lemma BeginWriter(s: State, update: Update)
    requires WriterOk(s) && s.writer.Idle? && update.Shaped()
    ensures WriterOk(Began(s, update))
  {
  }

  /** From now on the counter is past every version a reader may be copying. */
  lemma BeginStep(s: State, update: Update)
    requires Inv(s) && Enabled(s, Begin(update))
    ensures Inv(Next(s, Begin(update)))
  {
    BeginWriter(s, update);
    VersionsStay(s, Next(s, Begin(update)));
  }

  /** While bytes change, or were left half changed, the counter is odd, so no
      reader relies on them. */
  lemma StoringKeepsReader(s: State, t: State)
    requires Inv(s) && s.writer.Storing?
    requires t == s.(header := t.header, data := t.data, writer := t.writer)
    ensures ReaderOk(t) && VersionsOk(t) && DeliveredOk(t)
  {
    VersionsStay(s, t);
  }

  lemma StopStep(s: State)
    requires Inv(s) && Enabled(s, Stop)
    ensures Inv(Next(s, Stop))
  {
    StoringKeepsReader(s, Next(s, Stop));
  }

  lemma StoreHeaderWriter(s: State, i: nat)
    requires WriterOk(s) && Enabled(s, StoreHeader(i))
    ensures WriterOk(Next(s, StoreHeader(i)))
  {
    CopiedOne(s.writer.update.header, s.header, s.writer.todoHeader, HEADER_BYTES, i);
  }

  lemma StorePixelWriter(s: State, i: nat)
    requires WriterOk(s) && Enabled(s, StorePixel(i))
    ensures WriterOk(Next(s, StorePixel(i)))
  {
    CopiedOne(s.writer.update.pixels, s.data, s.writer.todoPixels, |s.writer.update.pixels|, i);
  }

  lemma StoreStep(s: State, a: Action)
    requires Inv(s) && Enabled(s, a) && (a.StoreHeader? || a.StorePixel?)
    ensures Inv(Next(s, a))
  {
    StoringKeepsReader(s, Next(s, a));
    match a
    case StoreHeader(i) => StoreHeaderWriter(s, i);
    case StorePixel(i) => StorePixelWriter(s, i);
  }

  lemma FinishWriter(s: State)
    requires WriterOk(s) && Enabled(s, Finish)
    ensures WriterOk(Next(s, Finish))
  {
  }

  lemma FinishVersions(s: State)
    requires WriterOk(s) && VersionsOk(s) && Enabled(s, Finish)
    ensures VersionsOk(Next(s, Finish))
  {
    var t, v := Next(s, Finish), s.writer.base + 2;
    forall w | w in t.versions ensures VersionOk(t, w) {
      if w == v {
        assert t.versions[w] == s.writer.update;
      } else {
        assert w in s.versions && t.versions[w] == s.versions[w] && VersionOk(s, w);
      }
    }
  }

  lemma FinishStep(s: State)
    requires Inv(s) && Enabled(s, Finish)
    ensures Inv(Next(s, Finish))
  {
    FinishWriter(s);
    FinishVersions(s);
    FinishKeepsReader(s);
  }

  /** The new version is newer than any a reader may be copying. */
  lemma FinishKeepsReader(s: State)
    requires Inv(s) && Enabled(s, Finish)
    ensures ReaderOk(Next(s, Finish)) && DeliveredOk(Next(s, Finish))
  {
  }

  /** A header that was copied while the counter stood still is the version's. */
  lemma CheckStep(s: State, hasBuffer: bool)
    requires Inv(s) && Enabled(s, Check(hasBuffer))
    ensures Inv(Next(s, Check(hasBuffer)))
  {
    if s.counter == s.reader.v {
      CopiedAll(s.header, s.reader.got);
      CopiedAll(s.versions[s.counter].header, s.header);
    }
  }

  lemma PixelsWhole(s: State)
    requires Inv(s) && Enabled(s, Recheck) && s.counter == s.reader.v
    ensures Update(s.reader.header, s.reader.got) == s.versions[s.counter]
  {
    var r, u := s.reader, s.versions[s.counter];
    assert VersionOk(s, s.counter) && |u.pixels| == |r.got|;
    forall i | 0 <= i < |r.got| ensures r.got[i] == u.pixels[i] {
      assert s.data[i] == r.got[i] && u.pixels[i] == s.data[i];
    }
    assert r.got == u.pixels;
  }

  lemma RecheckStep(s: State)
    requires Inv(s) && Enabled(s, Recheck)
    ensures Inv(Next(s, Recheck))
  {
    if s.counter == s.reader.v {
      PixelsWhole(s);
    }
  }

  lemma ReaderStep(s: State, a: Action)
    requires Inv(s) && Enabled(s, a) && (a.Load? || a.CopyHeader? || a.CopyPixel?)
    ensures Inv(Next(s, a))
  {
  }

  lemma Step(s: State, a: Action)
    requires Inv(s) && Enabled(s, a)
    ensures Inv(Next(s, a))
  {
    match a
    case Check(hasBuffer) => CheckStep(s, hasBuffer);
    case Recheck => RecheckStep(s);
    case Load => ReaderStep(s, a);
    case CopyHeader(i) => ReaderStep(s, a);
    case CopyPixel(i) => ReaderStep(s, a);
    case StoreHeader(i) => StoreStep(s, a);
    case StorePixel(i) => StoreStep(s, a);
    case Finish => FinishStep(s);
    case Stop => StopStep(s);
    case Begin(update) => BeginStep(s, update);
  }

  ghost predicate Run(states: seq<State>, actions: seq<Action>) {
    && |states| == |actions| + 1
    && states[0] == Start(states[0].capacity, states[0].header, states[0].data)
    && |states[0].header| == HEADER_BYTES && |states[0].data| == CURSOR_CAPACITY
    && forall k | 0 <= k < |actions| :: Enabled(states[k], actions[k]) && states[k + 1] == Next(states[k], actions[k])
  }

  lemma {:induction false} RunKeeps(states: seq<State>, actions: seq<Action>, k: nat)
    requires Run(states, actions) && k < |states|
    ensures Inv(states[k]) && states[k].capacity == states[0].capacity
  {
    if k > 0 {
      RunKeeps(states, actions, k - 1);
      Step(states[k - 1], actions[k - 1]);
    }
  }

  /** Every update delivered is, header and pixels, one completed send, and each
      is newer than the one before. */
  lemma DeliveredWhole(states: seq<State>, actions: seq<Action>, k: nat)
    requires Run(states, actions) && k < |states|
    ensures forall j | 0 <= j < |states[k].delivered| ::
              var d := states[k].delivered[j]; d.0 in states[k].versions && d.1 == states[k].versions[d.0]
    ensures forall i, j | 0 <= i < j < |states[k].delivered| :: states[k].delivered[i].0 < states[k].delivered[j].0
  {
    RunKeeps(states, actions, k);
  }

  /** However torn the header it read, the reader never copies more than its
      buffer holds, nor past the end of the shared pixels. */
  lemma CopyBounded(states: seq<State>, actions: seq<Action>, k: nat)
    requires Run(states, actions) && k < |states| && states[k].reader.CopyingPixels?
    ensures |states[k].reader.header| == HEADER_BYTES
    ensures |states[k].reader.got| == DataSize(states[k].reader.header) <= states[0].capacity
    ensures |states[k].reader.got| <= |states[k].data|
  {
    RunKeeps(states, actions, k);
  }
}
