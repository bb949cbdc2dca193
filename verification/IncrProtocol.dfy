/**
 The whole INCR conversation as a state machine: the owner with its four transfers, any
 number of requestors, the properties on the server between them, and the event queues.
 Each requestor follows `nack__xcb_read_selection` and `nack__xcb_read_incr`.
 */
module IncrProtocol {
  import opened Bits
  import opened Options
  import opened IncrSends

  type TextTarget = t: Target | IsText(t) witness UTF8_STRING

  datatype OwnerEvent = Deleted(key: Key) | Request(key: Key, target: TextTarget)

  /** What a requestor hears about its property. */
  datatype Notice = NewValue | Notify(ok: bool)

  datatype Phase = Idle | Waiting | Reading(buffer: Bytes) | Done(result: Bytes) | Failed

  /**
   A requestor; `snapshot` and `answers` record what the owner served it and how many deletes
   of its read were answered, for the theorems only.
   */
  datatype Reader = Reader(phase: Phase, inbox: seq<Notice>, snapshot: Bytes, answers: nat)

  datatype State =
    State(owner: Owner, owned: Option<Bytes>, queue: seq<OwnerEvent>, readers: map<Key, Reader>, now: real)

  datatype Action =
    | SetClipboard(owned: Option<Bytes>)
    | Elapse(seconds: real)
    | Start(key: Key, target: TextTarget)
    | OwnerStep
    | ReaderStep(key: Key)
    | Timeout(key: Key)

  function ReaderOf(s: State, key: Key): Reader {
    if key in s.readers then s.readers[key] else Reader(Idle, [], [], 0)
  }

  function WithReader(s: State, key: Key, r: Reader): State {
    s.(readers := s.readers[key := r])
  }

  function Post(r: Reader, notices: seq<Notice>): Reader {
    r.(inbox := r.inbox + notices)
  }

  predicate Busy(r: Reader) {
    r.phase.Waiting? || r.phase.Reading?
  }

  /** Deleting a property tells the owner about it only if it existed and the owner watches the window. */
  function DeleteProperty(s: State, key: Key): State {
    var server := s.owner.server;
    if key !in server.props then s
    else s.(owner := s.owner.(server := server.(props := server.props - {key})),
            queue := s.queue + if key.window in server.watched then [Deleted(key)] else [])
  }

  /** The bytes a read of the property returns; an announcement is a 32-bit number. */
  function ValueOf(p: Property): Bytes {
    match p
    case Announce(total) => [total % 256, total / 0x100 % 256, total / 0x1_0000 % 256, total / 0x100_0000 % 256]
    case Offer(targets) => seq(4 * |targets|, _ => 0)
    case Text(_, bytes) => bytes
  }

  /** The first active transfer for a property. */
  function TransferOf(o: Owner, key: Key): Option<Slot> {
    match TransferFrom(o.slots, key, 0) case None => None case Some(i) => Some(o.slots[i])
  }

  function HandleDeleted(s: State, key: Key): State
    requires WellFormed(s.owner)
  {
    match TransferOf(s.owner, key)
    case None => s
    case Some(t) =>
      var r := ReaderOf(s, key);
      var told := if Appends(s.owner.server.props, key, t.target) then [NewValue] else [];
      WithReader(s.(owner := AnswerDelete(s.owner, key, s.now)), key,
                 Post(r, told).(answers := if r.phase.Reading? then r.answers + 1 else r.answers))
  }

  function HandleRequest(s: State, key: Key, target: TextTarget): State {
    var r := ReaderOf(s, key);
    var (owner, ok) := WriteTarget(s.owner, s.owned, key, target, s.now);
    if ok then
      WithReader(s.(owner := owner), key, Reader(r.phase, r.inbox + [NewValue, Notify(true)], s.owned.value, 0))
    else WithReader(s.(owner := owner), key, Post(r, [Notify(false)]))
  }

  function OwnerHandles(s: State): State
    requires WellFormed(s.owner)
  {
    if s.queue == [] then s else
    var rest := s.(queue := s.queue[1..]);
    match s.queue[0]
    case Deleted(key) => HandleDeleted(rest, key)
    case Request(key, target) => HandleRequest(rest, key, target)
  }

  /** What a requestor reads when it is told of a new value. */
  function ReadBytes(s: State, key: Key): Bytes {
    if key in s.owner.server.props then ValueOf(s.owner.server.props[key]) else []
  }

  /** The requestor reads its property and deletes it; an empty value ends an incremental transfer. */
  function ReadChunk(s: State, key: Key, r: Reader): State
    requires r.phase.Reading?
  {
    var bytes := ReadBytes(s, key);
    WithReader(DeleteProperty(s, key), key,
               r.(phase := if bytes == [] then Done(r.phase.buffer) else Reading(r.phase.buffer + bytes)))
  }

  /** The first read after SelectionNotify: INCR starts a conversation, anything else is the selection. */
  function ReadFirst(s: State, key: Key, r: Reader): State {
    var props := s.owner.server.props;
    if key !in props then WithReader(s, key, r.(phase := Failed))
    else
      var phase := if props[key].Announce? then Reading([])
                   else if ValueOf(props[key]) == [] then Failed else Done(ValueOf(props[key]));
      WithReader(DeleteProperty(s, key), key, r.(phase := phase))
  }

  function ReaderHandles(s: State, key: Key): State {
    var r := ReaderOf(s, key);
    if r.inbox == [] then s else
    var rest := r.(inbox := r.inbox[1..]);
    match r.inbox[0]
    case NewValue => if r.phase.Reading? then ReadChunk(s, key, rest) else WithReader(s, key, rest)
    case Notify(ok) =>
      if !r.phase.Waiting? then WithReader(s, key, rest)
      else if ok then ReadFirst(s, key, rest)
      else WithReader(s, key, rest.(phase := Failed))
  }

  /** A fetch blocks its caller, so a busy requestor does not begin another. */
  function StartReading(s: State, key: Key, target: TextTarget): State {
    if Busy(ReaderOf(s, key)) then s
    else
      var t := DeleteProperty(s, key);
      WithReader(t.(queue := t.queue + [Request(key, target)]), key, ReaderOf(s, key).(phase := Waiting))
  }

  function GiveUp(s: State, key: Key): State {
    if Busy(ReaderOf(s, key)) then WithReader(s, key, ReaderOf(s, key).(phase := Failed)) else s
  }

  function Apply(s: State, a: Action): State
    requires WellFormed(s.owner)
  {
    match a
    case SetClipboard(owned) => s.(owned := owned)
    case Elapse(seconds) => s.(now := s.now + seconds)
    case Start(key, target) => StartReading(s, key, target)
    case OwnerStep => OwnerHandles(s)
    case ReaderStep(key) => ReaderHandles(s, key)
    case Timeout(key) => GiveUp(s, key)
  }

  /** The events of one conversation, in order. */
  function Pending(queue: seq<OwnerEvent>, key: Key): seq<OwnerEvent> {
    if queue == [] then []
    else if queue[0].key == key then [queue[0]] + Pending(queue[1..], key)
    else Pending(queue[1..], key)
  }

  // ---------------------------------------------------------------- what a run may do

  ghost predicate OnlyNewValues(inbox: seq<Notice>) {
    forall i | 0 <= i < |inbox| :: inbox[i] == NewValue
  }

  /** Nothing is left of an earlier request but deletes and transfers: it was answered, and the answer was read. */
  ghost predicate Answered(s: State, key: Key) {
    (forall i | 0 <= i < |Pending(s.queue, key)| :: Pending(s.queue, key)[i] == Deleted(key)) &&
    OnlyNewValues(ReaderOf(s, key).inbox)
  }

  /** The request at the head of the queue makes the owner look for a slot. */
  predicate NeedsSlot(s: State) {
    s.queue != [] && s.queue[0].Request? && s.queue[0].key.atom != NONE && s.owned.Some? && |s.owned.value| > INCR_CHUNK
  }

  /** ... and finds one, so that a transfer begins. */
  predicate Begins(s: State) {
    NeedsSlot(s) && FreeFrom(Retire(s.owner, s.now).slots, 0).Some?
  }

  /** A transfer begins only for a property that no live, unexpired transfer holds. */
  ghost predicate Distinctly(s: State) {
    Begins(s) ==> TransferOf(Retire(s.owner, s.now), s.queue[0].key) == None
  }

  /** A requestor has had its answer before it asks again. */
  ghost predicate Patient(s: State, a: Action) {
    a.Start? && !Busy(ReaderOf(s, a.key)) ==> Answered(s, a.key)
  }

  ghost predicate Allowed(s: State, a: Action) {
    Patient(s, a) && (a.OwnerStep? ==> Distinctly(s))
  }

  // ---------------------------------------------------------------- one conversation

  /** How many bytes have been sent after `answers` answered deletes. */
  function SentAfter(len: nat, answers: nat): nat {
    Min(len, answers * INCR_CHUNK)
  }

  /** The number of answered deletes of a complete transfer: a chunk each, and the empty one. */
  function AllAnswers(len: nat): nat {
    (len + INCR_CHUNK - 1) / INCR_CHUNK + 1
  }

  /** What a conversation can see: its events, its property, its requestor, its transfer. */
  datatype View = View(pending: seq<OwnerEvent>, property: Option<Property>, reader: Reader, transfer: Option<Slot>)

  function PropertyOf(s: State, key: Key): Option<Property> {
    if key in s.owner.server.props then Some(s.owner.server.props[key]) else None
  }

  function ViewOf(s: State, key: Key): View {
    View(Pending(s.queue, key), PropertyOf(s, key), ReaderOf(s, key), TransferOf(s.owner, key))
  }

  /** What a transfer has still to send. */
  function Unsent(t: Slot): Bytes {
    if t.sent <= |t.data| then t.data[t.sent..] else []
  }

  /** At most one delete is on its way, and then the property is absent. */
  ghost predicate Quiet(v: View, key: Key) {
    v.pending == [] || (v.pending == [Deleted(key)] && v.property == None)
  }

  ghost predicate Requested(v: View, key: Key) {
    (|v.pending| == 1 && v.pending[0].Request?) ||
    (|v.pending| == 2 && v.pending[0] == Deleted(key) && v.pending[1].Request? && v.property == None)
  }

  /** SelectionNotify is the last thing in the inbox. */
  ghost predicate Notified(inbox: seq<Notice>, ok: bool) {
    inbox != [] && OnlyNewValues(inbox[..|inbox| - 1]) && inbox[|inbox| - 1] == Notify(ok)
  }

  /** The announcement is in the property, and the requestor is about to read it. */
  ghost predicate Announced(v: View) {
    v.pending == [] && Notified(v.reader.inbox, true) && v.property.Some? && v.property.value.Announce? &&
    v.reader.answers == 0
  }

  /** The property is absent: the requestor has asked for the next chunk, or nobody is told that it has. */
  ghost predicate Asking(v: View, key: Key) {
    v.property == None && v.reader.inbox == [] && (v.pending == [] || v.pending == [Deleted(key)])
  }

  /** A chunk is in the property and the requestor has not read it yet. */
  ghost predicate Answering(v: View) {
    v.pending == [] && v.reader.inbox == [NewValue] && v.property.Some? && v.property.value.Text?
  }

  /** After `answers` answers out of `due`, exactly this much is left to send. */
  ghost predicate OnCourse(t: Slot, due: Bytes, answers: nat) {
    t.sent <= |t.data| && Unsent(t) == due[SentAfter(|due|, answers)..] &&
    (answers == 0 || (answers - 1) * INCR_CHUNK < |due|)
  }

  /** A transfer is feeding the requestor the bytes `due`. */
  ghost predicate Feeding(v: View, key: Key, due: Bytes) {
    var r := v.reader;
    match r.phase
    case Waiting => Announced(v) && v.transfer.Some? && OnCourse(v.transfer.value, due, 0)
    case Reading(buffer) =>
      (Asking(v, key) && v.transfer.Some? && OnCourse(v.transfer.value, due, r.answers) &&
       buffer == due[..SentAfter(|due|, r.answers)]) ||
      (Answering(v) && v.property.value.bytes != [] && v.transfer.Some? && OnCourse(v.transfer.value, due, r.answers) &&
       buffer + v.property.value.bytes == due[..SentAfter(|due|, r.answers)]) ||
      (Answering(v) && v.property.value.bytes == [] && buffer == due && r.answers == AllAnswers(|due|))
    case Done(result) => result == due && r.answers == AllAnswers(|due|) && Quiet(v, key)
    case _ => false
  }

  /** The transfer was retired: the read cannot finish any more. */
  ghost predicate Starved(v: View, key: Key) {
    v.transfer == None &&
    match v.reader.phase
    case Waiting => Announced(v)
    case Reading(_) => Asking(v, key) || (Answering(v) && v.property.value.bytes != [])
    case _ => false
  }

  /** A large selection on its way: a transfer feeds it, the last chunk ends it, or it was retired. */
  ghost predicate Transferring(v: View, key: Key) {
    |v.reader.snapshot| > INCR_CHUNK && (Feeding(v, key, v.reader.snapshot) || Starved(v, key)) &&
    (v.reader.phase.Reading? && Answering(v) && v.property.value.bytes == [] ==> v.transfer == None)
  }

  /** The request was answered with a refusal, the text itself, or an announcement. */
  ghost predicate Served(v: View, key: Key) {
    var r := v.reader;
    (v.pending == [] && Notified(r.inbox, false)) ||
    (v.pending == [] && Notified(r.inbox, true) && r.answers == 0 && |r.snapshot| <= INCR_CHUNK &&
     v.property.Some? && v.property.value.Text? && v.property.value.bytes == r.snapshot) ||
    Transferring(v, key)
  }

  /** The invariant of one conversation. */
  ghost predicate Conversation(v: View, key: Key) {
    var r := v.reader;
    match r.phase
    case Idle => Quiet(v, key)
    case Waiting => (Requested(v, key) && OnlyNewValues(r.inbox)) || Served(v, key)
    case Reading(_) => Transferring(v, key)
    case Done(result) =>
      Quiet(v, key) && result == r.snapshot &&
      r.answers == if |r.snapshot| > INCR_CHUNK then AllAnswers(|r.snapshot|) else 0
    case Failed => Quiet(v, key) || Requested(v, key)
  }

  // ---------------------------------------------------------------- the invariant

  ghost predicate DistinctTransfers(o: Owner) {
    forall i, j | 0 <= i < j < |o.slots| && o.slots[i].active && o.slots[j].active :: o.slots[i].key != o.slots[j].key
  }

  ghost predicate HoldsFor(s: State, key: Key) {
    Conversation(ViewOf(s, key), key)
  }

  ghost predicate Inv(s: State) {
    WellFormed(s.owner) && DistinctTransfers(s.owner) && forall key :: HoldsFor(s, key)
  }

  ghost predicate Init(s: State) {
    WellFormed(s.owner) && (forall i | 0 <= i < |s.owner.slots| :: !s.owner.slots[i].active) &&
    s.queue == [] && s.readers == map[]
  }

  /** A run without any rules. */
  ghost predicate Unruly(states: seq<State>, actions: seq<Action>) {
    |states| == |actions| + 1 && Init(states[0]) && forall i | 0 <= i < |actions| :: Happens(states, actions, i)
  }

  ghost predicate Happens(states: seq<State>, actions: seq<Action>, i: nat)
    requires i < |actions| < |states|
  {
    WellFormed(states[i].owner) && states[i + 1] == Apply(states[i], actions[i])
  }

  lemma InitHolds(s: State)
    requires Init(s)
    ensures Inv(s)
  {
    forall key ensures HoldsFor(s, key) {
      assert TransferFrom(s.owner.slots, key, 0).None?;
    }
  }

  // ---------------------------------------------------------------- queues

  lemma {:induction false} PendingAppend(queue: seq<OwnerEvent>, more: seq<OwnerEvent>, key: Key)
    ensures Pending(queue + more, key) == Pending(queue, key) + Pending(more, key)
  {
    if queue == [] {
      assert queue + more == more;
    } else {
      PendingAppend(queue[1..], more, key);
      assert (queue + more)[1..] == queue[1..] + more;
    }
  }

  lemma PendingOne(e: OwnerEvent, key: Key)
    ensures Pending([e], key) == if e.key == key then [e] else []
  {
    assert [e][1..] == [];
  }

  // ---------------------------------------------------------------- transfers

  /** The first transfer for a property stays the first while no slot before it takes the property. */
  lemma {:induction false} FirstKept(b: seq<Slot>, key: Key, i: nat, f: nat)
    requires i <= f < |b| && b[f].active && b[f].key == key
    requires forall k | i <= k < f :: !(b[k].active && b[k].key == key)
    ensures TransferFrom(b, key, i) == Some(f)
    decreases f - i
  {
    if i < f {
      FirstKept(b, key, i + 1, f);
    }
  }

  /** Slots that hold a property neither before nor after do not matter to it. */
  lemma {:induction false} SameFirst(a: seq<Slot>, b: seq<Slot>, key: Key, i: nat)
    requires |a| == |b| && i <= |a|
    requires forall k | i <= k < |a| ::
               a[k] == b[k] || (!(a[k].active && a[k].key == key) && !(b[k].active && b[k].key == key))
    ensures TransferFrom(a, key, i) == TransferFrom(b, key, i)
    ensures TransferFrom(a, key, i).Some? ==> a[TransferFrom(a, key, i).value] == b[TransferFrom(a, key, i).value]
    decreases |a| - i
  {
    if i < |a| {
      SameFirst(a, b, key, i + 1);
    }
  }

  /** Retiring keeps an unexpired first transfer the first. */
  lemma RetireKeepsFirst(o: Owner, now: real, key: Key)
    requires TransferOf(o, key).Some? && !Expired(TransferOf(o, key).value, now)
    ensures TransferOf(Retire(o, now), key) == TransferOf(o, key)
  {
    var r, f := Retire(o, now), TransferFrom(o.slots, key, 0).value;
    forall k | 0 <= k <= f
      ensures r.slots[k] == if Expired(o.slots[k], now) then Ended(o.slots[k]) else o.slots[k]
    {
      RetireAt(o, now, 0, k);
    }
    FirstKept(r.slots, key, 0, f);
  }

  lemma RetireSlots(o: Owner, now: real)
    requires o.slots != []
    ensures forall k | 0 <= k < |o.slots| ::
              Retire(o, now).slots[k] == if Expired(o.slots[k], now) then Ended(o.slots[k]) else o.slots[k]
    ensures Retire(o, now).server.props == o.server.props
  {
    forall k | 0 <= k < |o.slots|
      ensures Retire(o, now).slots[k] == if Expired(o.slots[k], now) then Ended(o.slots[k]) else o.slots[k]
    {
      RetireAt(o, now, 0, k);
    }
    RetireAt(o, now, 0, 0);
  }
}
