/** What a transfer delivers to one requestor, whatever everybody else does meanwhile. */
module IncrFeeding {
  import opened Bits
  import opened Options
  import opened IncrSends
  import opened IncrProtocol

  /** The requestor still needs an answer: its read is not over, and it is not about to read the empty chunk. */
  ghost predicate Awaits(v: View) {
    Busy(v.reader) && !(Answering(v) && v.property.value.bytes == [])
  }

  /** The step does not make the owner retire the first transfer for the property. */
  predicate Spares(s: State, a: Action, key: Key) {
    a.OwnerStep? && NeedsSlot(s) && TransferOf(s.owner, key).Some? ==> !Expired(TransferOf(s.owner, key).value, s.now)
  }

  /**
   The step leaves the requestor to its read: it does not give up or ask for something else,
   and the owner does not retire the transfer it still needs.
   */
  ghost predicate Undisturbed(s: State, a: Action, key: Key) {
    a != Timeout(key) && (a.Start? && a.key == key ==> Busy(ReaderOf(s, key))) &&
    (Awaits(ViewOf(s, key)) ==> Spares(s, a, key))
  }

  lemma AnswerKeepsForm(o: Owner, key: Key, now: real)
    requires WellFormed(o)
    ensures WellFormed(AnswerDelete(o, key, now))
  {
  }

  lemma RequestKeepsForm(o: Owner, owned: Option<Bytes>, key: Key, target: Target, now: real)
    requires WellFormed(o)
    ensures WellFormed(WriteTarget(o, owned, key, target, now).0)
  {
    RetireSlots(o, now);
  }

  lemma StepKeepsForm(s: State, a: Action)
    requires WellFormed(s.owner)
    ensures WellFormed(Apply(s, a).owner)
  {
    if a.OwnerStep? && s.queue != [] {
      match s.queue[0] {
        case Deleted(key) => AnswerKeepsForm(s.owner, key, s.now);
        case Request(key, target) => RequestKeepsForm(s.owner, s.owned, key, target, s.now);
      }
    }
  }

  lemma NotifyEnds(inbox: seq<Notice>, ok: bool)
    requires OnlyNewValues(inbox)
    ensures Notified(inbox + [Notify(ok)], ok) && Notified(inbox + [NewValue, Notify(ok)], ok)
  {
    assert (inbox + [Notify(ok)])[..|inbox|] == inbox;
    assert (inbox + [NewValue, Notify(ok)])[..|inbox| + 1] == inbox + [NewValue];
  }

  // ---------------------------------------------------------------- the steps of others

  /** Deleting a property: the view of its own conversation, and no other. */
  lemma DeleteView(s: State, key: Key, other: Key)
    ensures var t := DeleteProperty(s, key);
            t.owner.slots == s.owner.slots && t.readers == s.readers && PropertyOf(t, key) == None &&
            Pending(t.queue, key) ==
              Pending(s.queue, key) +
              (if PropertyOf(s, key).Some? && key.window in s.owner.server.watched then [Deleted(key)] else []) &&
            (other != key ==>
               PropertyOf(t, other) == PropertyOf(s, other) && Pending(t.queue, other) == Pending(s.queue, other))
  {
    PendingAppend(s.queue, [Deleted(key)], key);
    PendingAppend(s.queue, [Deleted(key)], other);
    PendingOne(Deleted(key), key);
    PendingOne(Deleted(key), other);
    assert Pending(s.queue, key) + [] == Pending(s.queue, key);
    assert Pending(s.queue, other) + [] == Pending(s.queue, other);
    assert s.queue + [] == s.queue;
  }

  lemma StartView(s: State, key: Key, target: TextTarget, other: Key)
    requires other != key
    ensures ViewOf(StartReading(s, key, target), other) == ViewOf(s, other)
  {
    if !Busy(ReaderOf(s, key)) {
      var d := DeleteProperty(s, key);
      DeleteView(s, key, other);
      PendingAppend(d.queue, [Request(key, target)], other);
      PendingOne(Request(key, target), other);
      assert Pending(d.queue, other) + [] == Pending(d.queue, other);
    }
  }

  /** A requestor's step changes its own record, and at most deletes its property. */
  lemma ReaderForm(s: State, key: Key)
    ensures var t := ReaderHandles(s, key);
            t == s || t == WithReader(s, key, ReaderOf(t, key)) ||
            t == WithReader(DeleteProperty(s, key), key, ReaderOf(t, key))
  {
    var r := ReaderOf(s, key);
    if r.inbox != [] {
      if r.inbox[0] == NewValue {
      } else if r.phase.Waiting? {
      }
    }
  }

  lemma ReaderView(s: State, key: Key, other: Key)
    requires other != key
    ensures ViewOf(ReaderHandles(s, key), other) == ViewOf(s, other)
  {
    ReaderForm(s, key);
    DeleteView(s, key, other);
    var r := ReaderOf(ReaderHandles(s, key), key);
    assert ViewOf(WithReader(s, key, r), other) == ViewOf(s, other);
    assert ViewOf(WithReader(DeleteProperty(s, key), key, r), other) == ViewOf(DeleteProperty(s, key), other);
  }

  /** Answering a delete leaves the first transfer of every other property as it is. */
  lemma AnswerFirst(o: Owner, key: Key, now: real, other: Key)
    requires WellFormed(o) && other != key
    ensures TransferOf(AnswerDelete(o, key, now), other) == TransferOf(o, other)
  {
    SameFirst(o.slots, AnswerDelete(o, key, now).slots, other, 0);
  }

  /** A request leaves the first transfer of every other property as it is, unless that has expired. */
  lemma RequestFirst(o: Owner, owned: Option<Bytes>, key: Key, target: TextTarget, now: real, other: Key)
    requires WellFormed(o) && other != key
    requires owned.Some? && key.atom != NONE && |owned.value| > INCR_CHUNK && TransferOf(o, other).Some? ==>
      !Expired(TransferOf(o, other).value, now)
    ensures TransferOf(WriteTarget(o, owned, key, target, now).0, other) == TransferOf(o, other)
  {
    var n := WriteTarget(o, owned, key, target, now).0;
    if owned.Some? && key.atom != NONE && |owned.value| > INCR_CHUNK {
      var r := Retire(o, now);
      RetireSlots(o, now);
      if TransferOf(o, other).Some? {
        RetireKeepsFirst(o, now, other);
      } else {
        SameFirst(o.slots, r.slots, other, 0);
      }
      SameFirst(r.slots, n.slots, other, 0);
    }
  }

  lemma RequestProps(o: Owner, owned: Option<Bytes>, key: Key, target: TextTarget, now: real, other: Key)
    requires WellFormed(o) && other != key
    ensures var n := WriteTarget(o, owned, key, target, now).0;
            (other in n.server.props <==> other in o.server.props) &&
            (other in o.server.props ==> n.server.props[other] == o.server.props[other])
  {
    RetireSlots(o, now);
  }

  lemma OwnerView(s: State, other: Key)
    requires WellFormed(s.owner) && s.queue != [] && s.queue[0].key != other && Spares(s, OwnerStep, other)
    ensures ViewOf(OwnerHandles(s), other) == ViewOf(s, other)
  {
    match s.queue[0] {
      case Deleted(key) => AnswerFirst(s.owner, key, s.now, other);
      case Request(key, target) =>
        RequestFirst(s.owner, s.owned, key, target, s.now, other);
        RequestProps(s.owner, s.owned, key, target, s.now, other);
    }
  }

  /** Whose conversation a step belongs to. */
  predicate Concerns(s: State, a: Action, key: Key) {
    match a
    case SetClipboard(_) => false
    case Elapse(_) => false
    case Start(k, _) => k == key
    case OwnerStep => s.queue != [] && s.queue[0].key == key
    case ReaderStep(k) => k == key
    case Timeout(k) => k == key
  }

  /** The steps of others change nothing a requestor can see. */
  lemma OthersUnseen(s: State, a: Action, key: Key)
    requires WellFormed(s.owner) && Spares(s, a, key) && !Concerns(s, a, key)
    ensures ViewOf(Apply(s, a), key) == ViewOf(s, key)
  {
    match a
    case SetClipboard(_) =>
    case Elapse(_) =>
    case Start(k, target) => StartView(s, k, target, key);
    case OwnerStep => if s.queue != [] { OwnerView(s, key); }
    case ReaderStep(k) => ReaderView(s, k, key);
    case Timeout(k) =>
  }

  /** The steps of others never touch a requestor's events, property and record. */
  lemma OthersElsewhere(s: State, a: Action, key: Key)
    requires WellFormed(s.owner) && !Concerns(s, a, key)
    ensures ViewOf(Apply(s, a), key).(transfer := None) == ViewOf(s, key).(transfer := None)
  {
    match a
    case SetClipboard(_) =>
    case Elapse(_) =>
    case Start(k, target) => StartView(s, k, target, key);
    case OwnerStep =>
      if s.queue != [] && s.queue[0].Request? {
        RequestProps(s.owner, s.owned, s.queue[0].key, s.queue[0].target, s.now, key);
      }
    case ReaderStep(k) => ReaderView(s, k, key);
    case Timeout(k) =>
  }

  // ---------------------------------------------------------------- the requestor's own steps

  lemma ChunkArithmetic(len: nat, answers: nat)
    requires answers == 0 || (answers - 1) * INCR_CHUNK < len
    ensures SentAfter(len, answers) + Min(len - SentAfter(len, answers), INCR_CHUNK) == SentAfter(len, answers + 1)
    ensures SentAfter(len, answers) == len ==> answers + 1 == AllAnswers(len)
    ensures SentAfter(len, answers) < len ==> answers * INCR_CHUNK < len && answers + 1 < AllAnswers(len)
  {
  }

  /** One answer takes the next chunk off what is due. */
  lemma OnCourseNext(t: Slot, due: Bytes, answers: nat, deadline: real)
    requires OnCourse(t, due, answers)
    ensures var c := Chunk(t);
            due[..SentAfter(|due|, answers)] + c == due[..SentAfter(|due|, answers + 1)] &&
            (c == [] <==> SentAfter(|due|, answers) == |due|) &&
            (c == [] ==> answers + 1 == AllAnswers(|due|)) &&
            (c != [] ==> OnCourse(t.(sent := t.sent + |c|, deadline := deadline), due, answers + 1))
  {
    var c, from := Chunk(t), SentAfter(|due|, answers);
    ChunkArithmetic(|due|, answers);
    assert |Unsent(t)| == |due| - from;
    assert c == Unsent(t)[..|c|] == due[from..][..|c|];
    assert due[..from] + due[from..][..|c|] == due[..from + |c|];
    assert t.data[t.sent + |c|..] == Unsent(t)[|c|..] == due[from..][|c|..] == due[from + |c|..];
  }

  /** What an answered delete does to the property, the requestor and the first transfer. */
  lemma AnswerView(s: State, key: Key)
    requires WellFormed(s.owner) && TransferOf(s.owner, key).Some? && PropertyOf(s, key) == None
    ensures var t, c, r := TransferOf(s.owner, key).value, Chunk(TransferOf(s.owner, key).value), ReaderOf(s, key);
            var n := HandleDeleted(s, key);
            PropertyOf(n, key) == Some(Text(t.target, c)) && n.queue == s.queue &&
            ReaderOf(n, key) ==
              Post(r, [NewValue]).(answers := if r.phase.Reading? then r.answers + 1 else r.answers) &&
            (c != [] ==> TransferOf(n.owner, key) == Some(t.(sent := t.sent + |c|, deadline := s.now + SEND_TIMEOUT)))
  {
    var f := TransferFrom(s.owner.slots, key, 0).value;
    var n := AnswerDelete(s.owner, key, s.now);
    if Chunk(s.owner.slots[f]) != [] {
      FirstKept(n.slots, key, 0, f);
    }
  }

  /** A requestor that asked, and its next chunk. */
  lemma AnsweredView(v: View, key: Key, due: Bytes, next: Option<Slot>, deadline: real)
    requires Feeding(v, key, due) && v.reader.phase.Reading? && v.pending == [Deleted(key)] && v.transfer.Some?
    requires v.transfer.value.sent <= |v.transfer.value.data|
    requires var t, c := v.transfer.value, Chunk(v.transfer.value);
             c != [] ==> next == Some(t.(sent := t.sent + |c|, deadline := deadline))
    ensures var t, r := v.transfer.value, v.reader;
            var n := View([], Some(Text(t.target, Chunk(t))), Post(r, [NewValue]).(answers := r.answers + 1), next);
            Feeding(n, key, due) && Answering(n)
  {
    var t, r := v.transfer.value, v.reader;
    assert Asking(v, key);
    OnCourseNext(t, due, r.answers, deadline);
    assert r.inbox + [NewValue] == [NewValue];
    assert due[..|due|] == due;
  }

  /** The owner answers the requestor it is feeding. */
  lemma AnswerFeeds(s: State, key: Key, due: Bytes)
    requires WellFormed(s.owner) && s.queue != [] && s.queue[0] == Deleted(key) && Feeding(ViewOf(s, key), key, due)
    ensures Feeding(ViewOf(OwnerHandles(s), key), key, due)
    ensures ReaderOf(s, key).phase.Reading? ==>
      Answering(ViewOf(OwnerHandles(s), key)) && ReaderOf(OwnerHandles(s), key).answers == ReaderOf(s, key).answers + 1
  {
    var v, rest := ViewOf(s, key), s.(queue := s.queue[1..]);
    assert v.pending == [Deleted(key)] + Pending(rest.queue, key);
    assert v.pending == [Deleted(key)] && Pending(rest.queue, key) == [] && v.property == None;
    if v.transfer.Some? {
      AnswerView(rest, key);
      if v.reader.phase.Reading? {
        var next := TransferOf(OwnerHandles(s).owner, key);
        AnsweredView(v, key, due, next, s.now + SEND_TIMEOUT);
        assert OwnerHandles(s) == HandleDeleted(rest, key);
      }
    }
  }

  lemma ReadFeeds(s: State, key: Key, due: Bytes)
    requires WellFormed(s.owner) && Feeding(ViewOf(s, key), key, due)
    ensures Feeding(ViewOf(ReaderHandles(s, key), key), key, due)
  {
    var v, r := ViewOf(s, key), ReaderOf(s, key);
    if r.inbox != [] {
      var rest := r.inbox[1..];
      DeleteView(s, key, key);
      if r.phase.Waiting? && |r.inbox| > 1 {
        assert r.inbox[0] == r.inbox[..|r.inbox| - 1][0];
        assert rest[..|rest| - 1] == r.inbox[..|r.inbox| - 1][1..];
      } else if r.phase.Waiting? {
        assert rest == [];
        assert due[..0] == [];
      } else if r.phase.Reading? {
        assert rest == [];
      }
    }
  }

  /** A requestor that needs no answer does not need its transfer. */
  lemma FedAnyway(v: View, w: View, key: Key, due: Bytes)
    requires Feeding(v, key, due) && !Awaits(v) && v.(transfer := None) == w.(transfer := None)
    ensures Feeding(w, key, due) && !Awaits(w) && w.reader == v.reader
  {
    assert w == v.(transfer := w.transfer);
  }

  lemma OwnFeedingStep(s: State, a: Action, key: Key, due: Bytes)
    requires WellFormed(s.owner) && Feeding(ViewOf(s, key), key, due) && Undisturbed(s, a, key) && Concerns(s, a, key)
    ensures Feeding(ViewOf(Apply(s, a), key), key, due)
    ensures ReaderOf(Apply(s, a), key).snapshot == ReaderOf(s, key).snapshot
  {
    match a
    case Start(_, _) => assert Apply(s, a) == s;
    case OwnerStep =>
      assert Pending(s.queue, key)[0] == s.queue[0];
      AnswerFeeds(s, key, due);
    case ReaderStep(_) => ReadFeeds(s, key, due);
  }

  /** While nobody disturbs it, a requestor being fed goes on being fed the same bytes. */
  lemma FeedingStep(s: State, a: Action, key: Key, due: Bytes)
    requires WellFormed(s.owner) && Feeding(ViewOf(s, key), key, due) && Undisturbed(s, a, key)
    ensures Feeding(ViewOf(Apply(s, a), key), key, due) &&
            ReaderOf(Apply(s, a), key).snapshot == ReaderOf(s, key).snapshot
  {
    if Concerns(s, a, key) {
      OwnFeedingStep(s, a, key, due);
    } else {
      OthersElsewhere(s, a, key);
      assert ViewOf(Apply(s, a), key).(transfer := None).reader == ViewOf(s, key).(transfer := None).reader;
      if Awaits(ViewOf(s, key)) {
        OthersUnseen(s, a, key);
      } else {
        FedAnyway(ViewOf(s, key), ViewOf(Apply(s, a), key), key, due);
      }
    }
  }

  /** An announced selection is fed from the beginning of what its transfer has to send. */
  lemma AnnouncedFeeds(v: View, key: Key)
    requires v.reader.phase.Waiting? && Announced(v) && v.transfer.Some?
    requires v.transfer.value.sent <= |v.transfer.value.data|
    ensures Feeding(v, key, Unsent(v.transfer.value))
  {
    var due := Unsent(v.transfer.value);
    assert due[0..] == due;
  }

  // ---------------------------------------------------------------- undisturbed runs

  /** A stretch of a run in which nobody disturbs the requestor. */
  ghost predicate Continues(states: seq<State>, actions: seq<Action>, key: Key) {
    |states| == |actions| + 1 && forall i | 0 <= i < |actions| :: GoesOn(states, actions, key, i)
  }

  ghost predicate GoesOn(states: seq<State>, actions: seq<Action>, key: Key, i: nat)
    requires i < |actions| < |states|
  {
    WellFormed(states[i].owner) && Undisturbed(states[i], actions[i], key) &&
    states[i + 1] == Apply(states[i], actions[i])
  }

  /** Whatever a requestor gets along such a stretch is what its transfer had to send. */
  lemma {:induction false} FeedingContinues(states: seq<State>, actions: seq<Action>, key: Key, due: Bytes, n: nat)
    requires Continues(states, actions, key) && n < |states| && Feeding(ViewOf(states[0], key), key, due)
    ensures Feeding(ViewOf(states[n], key), key, due)
    ensures ReaderOf(states[n], key).snapshot == ReaderOf(states[0], key).snapshot
  {
    if n > 0 {
      FeedingContinues(states, actions, key, due, n - 1);
      assert GoesOn(states, actions, key, n - 1);
      FeedingStep(states[n - 1], actions[n - 1], key, due);
    }
  }

  // ---------------------------------------------------------------- unheard requestors

  /** The requestor waits for a chunk that nobody has been asked for. */
  ghost predicate Stalled(s: State, key: Key, buffer: Bytes) {
    ReaderOf(s, key).phase == Reading(buffer) && Asking(ViewOf(s, key), key) && Pending(s.queue, key) == []
  }

  /** A requestor whose delete was not reported gets nothing more, whatever anybody does, until it gives up. */
  lemma StalledStays(s: State, a: Action, key: Key, buffer: Bytes)
    requires WellFormed(s.owner) && Stalled(s, key, buffer) && a != Timeout(key)
    ensures Stalled(Apply(s, a), key, buffer)
  {
    if !Concerns(s, a, key) {
      OthersElsewhere(s, a, key);
    }
  }
}
