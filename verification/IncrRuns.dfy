/** The invariant of all conversations, and what it says of every run. */
module IncrRuns {
  import opened Options
  import opened IncrSends
  import opened IncrProtocol
  import opened IncrFeeding

  // ---------------------------------------------------------------- transfers stay apart

  lemma AnswerDistinct(o: Owner, key: Key, now: real)
    requires WellFormed(o) && DistinctTransfers(o)
    ensures DistinctTransfers(AnswerDelete(o, key, now))
  {
  }

  lemma RequestDistinct(o: Owner, owned: Option<Bytes>, key: Key, target: TextTarget, now: real)
    requires WellFormed(o) && DistinctTransfers(o)
    requires owned.Some? && key.atom != NONE && |owned.value| > INCR_CHUNK &&
             FreeFrom(Retire(o, now).slots, 0).Some? ==>
               TransferOf(Retire(o, now), key) == None
    ensures DistinctTransfers(WriteTarget(o, owned, key, target, now).0)
  {
    RetireSlots(o, now);
  }

  /** Retiring ends the first transfer for a property or leaves it: there is no second to take its place. */
  lemma RetiredOrKept(o: Owner, now: real, key: Key)
    requires WellFormed(o) && DistinctTransfers(o)
    ensures TransferOf(Retire(o, now), key) == TransferOf(o, key) || TransferOf(Retire(o, now), key) == None
  {
    RetireSlots(o, now);
    if TransferOf(o, key).None? {
      SameFirst(o.slots, Retire(o, now).slots, key, 0);
    } else if !Expired(TransferOf(o, key).value, now) {
      RetireKeepsFirst(o, now, key);
    }
  }

  /** A step about another property leaves the view of a conversation, but for a transfer it may retire. */
  lemma OthersApart(s: State, a: Action, key: Key)
    requires WellFormed(s.owner) && DistinctTransfers(s.owner) && !Concerns(s, a, key)
    ensures ViewOf(Apply(s, a), key) == ViewOf(s, key) || ViewOf(Apply(s, a), key) == ViewOf(s, key).(transfer := None)
  {
    if Spares(s, a, key) {
      OthersUnseen(s, a, key);
    } else {
      var other, target := s.queue[0].key, s.queue[0].target;
      RetiredOrKept(s.owner, s.now, key);
      RequestProps(s.owner, s.owned, other, target, s.now, key);
      var r, n := Retire(s.owner, s.now), WriteTarget(s.owner, s.owned, other, target, s.now).0;
      SameFirst(r.slots, n.slots, key, 0);
    }
  }

  lemma Weaken(v: View, key: Key)
    requires Conversation(v, key)
    ensures Conversation(v.(transfer := None), key)
  {
  }

  // ---------------------------------------------------------------- the steps of one conversation

  lemma StartHolds(s: State, key: Key, target: TextTarget)
    requires HoldsFor(s, key) && Allowed(s, Start(key, target))
    ensures HoldsFor(StartReading(s, key, target), key)
  {
    if !Busy(ReaderOf(s, key)) {
      var d := DeleteProperty(s, key);
      DeleteView(s, key, key);
      PendingAppend(d.queue, [Request(key, target)], key);
      PendingOne(Request(key, target), key);
      var pending := Pending(s.queue, key);
      assert forall i | 0 <= i < |pending| :: pending[i] == Deleted(key);
    }
  }

  /** The empty chunk ends the only transfer for the property. */
  lemma LastEnds(o: Owner, key: Key, now: real)
    requires WellFormed(o) && DistinctTransfers(o) && LastAnswer(o, key)
    ensures TransferOf(AnswerDelete(o, key, now), key) == None
  {
  }

  lemma DeletedHolds(s: State, key: Key)
    requires WellFormed(s.owner) && DistinctTransfers(s.owner) && HoldsFor(s, key)
    requires s.queue != [] && s.queue[0] == Deleted(key)
    ensures HoldsFor(OwnerHandles(s), key)
  {
    var v, rest := ViewOf(s, key), s.(queue := s.queue[1..]);
    var r := v.reader;
    assert v.pending == [Deleted(key)] + Pending(rest.queue, key);
    assert v.property == None;
    if r.phase.Reading? && Feeding(v, key, r.snapshot) {
      AnswerFeeds(s, key, r.snapshot);
      AnswerView(rest, key);
      if LastAnswer(s.owner, key) {
        LastEnds(s.owner, key, s.now);
      }
    } else if v.transfer.Some? {
      AnswerView(rest, key);
    }
  }

  lemma ServedView(s: State, key: Key, target: TextTarget)
    requires WellFormed(s.owner) && s.queue != [] && s.queue[0] == Request(key, target) && Distinctly(s) && Begins(s)
    ensures TransferOf(OwnerHandles(s).owner, key) ==
              Some(Slot(key, target, s.owned.value, 0, s.now + SEND_TIMEOUT, true))
  {
    var r, n := Retire(s.owner, s.now), OwnerHandles(s).owner;
    var f := FreeFrom(r.slots, 0).value;
    FirstKept(n.slots, key, 0, f);
  }

  /** What a served request leaves in the view of its conversation. */
  lemma RequestView(s: State, key: Key, target: TextTarget)
    requires WellFormed(s.owner) && HoldsFor(s, key) && s.queue != [] && s.queue[0] == Request(key, target)
    ensures Requested(ViewOf(s, key), key) && Pending(OwnerHandles(s).queue, key) == []
  {
    assert Pending(s.queue, key) == [Request(key, target)] + Pending(s.queue[1..], key);
  }

  lemma LargeServed(s: State, key: Key, target: TextTarget)
    requires WellFormed(s.owner) && HoldsFor(s, key) && s.queue != [] && s.queue[0] == Request(key, target)
    requires Distinctly(s) && Begins(s) && ReaderOf(s, key).phase.Waiting?
    ensures Transferring(ViewOf(OwnerHandles(s), key), key)
  {
    var n := ViewOf(OwnerHandles(s), key);
    RequestView(s, key, target);
    ServedView(s, key, target);
    NotifyEnds(ReaderOf(s, key).inbox, true);
    assert Announced(n);
    AnnouncedFeeds(n, key);
    assert Unsent(n.transfer.value) == s.owned.value == n.reader.snapshot;
  }

  lemma RequestHolds(s: State, key: Key, target: TextTarget)
    requires WellFormed(s.owner) && HoldsFor(s, key) && s.queue != [] && s.queue[0] == Request(key, target) &&
             Distinctly(s)
    ensures HoldsFor(OwnerHandles(s), key)
  {
    if !ReaderOf(s, key).phase.Waiting? {
      RequestView(s, key, target);
    } else if Begins(s) {
      RequestView(s, key, target);
      LargeServed(s, key, target);
    } else {
      SmallServed(s, key, target);
    }
  }

  /** A refusal, or the text itself. */
  lemma SmallServed(s: State, key: Key, target: TextTarget)
    requires WellFormed(s.owner) && HoldsFor(s, key) && s.queue != [] && s.queue[0] == Request(key, target)
    requires ReaderOf(s, key).phase.Waiting? && !Begins(s)
    ensures HoldsFor(OwnerHandles(s), key)
  {
    RequestView(s, key, target);
    NotifyEnds(ReaderOf(s, key).inbox, true);
    NotifyEnds(ReaderOf(s, key).inbox, false);
  }

  lemma ChunkHolds(s: State, key: Key)
    requires WellFormed(s.owner) && HoldsFor(s, key) && ReaderOf(s, key).phase.Reading? && ReaderOf(s, key).inbox != []
    ensures HoldsFor(ReaderHandles(s, key), key)
  {
    var v, r := ViewOf(s, key), ReaderOf(s, key);
    if Feeding(v, key, r.snapshot) {
      ReadFeeds(s, key, r.snapshot);
    } else {
      DeleteView(s, key, key);
    }
  }

  /** What comes before SelectionNotify in the inbox is skipped. */
  lemma SkipHolds(v: View, key: Key, rest: seq<Notice>)
    requires Conversation(v, key) && v.reader.phase.Waiting? && |v.reader.inbox| > 1 && rest == v.reader.inbox[1..]
    ensures v.reader.inbox[0] == NewValue && Conversation(v.(reader := v.reader.(inbox := rest)), key)
  {
    var inbox := v.reader.inbox;
    assert rest[..|rest| - 1] == inbox[..|inbox| - 1][1..];
    assert inbox[0] == inbox[..|inbox| - 1][0];
  }

  lemma FirstHolds(s: State, key: Key)
    requires WellFormed(s.owner) && HoldsFor(s, key) && ReaderOf(s, key).phase.Waiting?
    requires ReaderOf(s, key).inbox == [Notify(true)]
    ensures HoldsFor(ReaderHandles(s, key), key)
  {
    var v, r := ViewOf(s, key), ReaderOf(s, key);
    assert r.inbox[0] == Notify(true) && r.inbox[1..] == [];
    if Transferring(v, key) && Feeding(v, key, r.snapshot) {
      ReadFeeds(s, key, r.snapshot);
    } else {
      DeleteView(s, key, key);
    }
  }

  lemma NoticeHolds(s: State, key: Key)
    requires WellFormed(s.owner) && HoldsFor(s, key) && ReaderOf(s, key).phase.Waiting? && ReaderOf(s, key).inbox != []
    ensures HoldsFor(ReaderHandles(s, key), key)
  {
    var v, r := ViewOf(s, key), ReaderOf(s, key);
    if |r.inbox| > 1 {
      SkipHolds(v, key, r.inbox[1..]);
      assert ViewOf(ReaderHandles(s, key), key) == v.(reader := r.(inbox := r.inbox[1..]));
    } else if r.inbox[0] == Notify(true) {
      FirstHolds(s, key);
    }
  }

  lemma ReaderHolds(s: State, key: Key)
    requires WellFormed(s.owner) && HoldsFor(s, key)
    ensures HoldsFor(ReaderHandles(s, key), key)
  {
    var r := ReaderOf(s, key);
    if r.inbox != [] {
      if r.phase.Reading? {
        ChunkHolds(s, key);
      } else if r.phase.Waiting? {
        NoticeHolds(s, key);
      }
    }
  }

  lemma OwnStepHolds(s: State, a: Action, key: Key)
    requires WellFormed(s.owner) && DistinctTransfers(s.owner) && HoldsFor(s, key) && Allowed(s, a) &&
             Concerns(s, a, key)
    ensures HoldsFor(Apply(s, a), key)
  {
    match a
    case Start(_, target) => StartHolds(s, key, target);
    case OwnerStep =>
      match s.queue[0] {
        case Deleted(_) => DeletedHolds(s, key);
        case Request(_, target) => RequestHolds(s, key, target);
      }
    case ReaderStep(_) => ReaderHolds(s, key);
    case Timeout(_) =>
  }

  lemma StepDistinct(s: State, a: Action)
    requires WellFormed(s.owner) && DistinctTransfers(s.owner) && Allowed(s, a)
    ensures DistinctTransfers(Apply(s, a).owner)
  {
    if a.OwnerStep? && s.queue != [] {
      match s.queue[0] {
        case Deleted(key) => AnswerDistinct(s.owner, key, s.now);
        case Request(key, target) => RequestDistinct(s.owner, s.owned, key, target, s.now);
      }
    }
  }

  /** Every step keeps the invariant of every conversation. */
  lemma StepPreserves(s: State, a: Action)
    requires Inv(s) && Allowed(s, a)
    ensures Inv(Apply(s, a))
  {
    StepKeepsForm(s, a);
    StepDistinct(s, a);
    forall key ensures HoldsFor(Apply(s, a), key) {
      assert HoldsFor(s, key);
      if Concerns(s, a, key) {
        OwnStepHolds(s, a, key);
      } else {
        OthersApart(s, a, key);
        Weaken(ViewOf(s, key), key);
      }
    }
  }

  // ---------------------------------------------------------------- whole runs

  ghost predicate RunStep(states: seq<State>, actions: seq<Action>, i: nat)
    requires i < |actions| < |states|
  {
    Happens(states, actions, i) && Allowed(states[i], actions[i])
  }

  ghost predicate IsRun(states: seq<State>, actions: seq<Action>) {
    |states| == |actions| + 1 && Init(states[0]) && forall i | 0 <= i < |actions| :: RunStep(states, actions, i)
  }

  lemma {:induction false} RunKeepsInv(states: seq<State>, actions: seq<Action>, n: nat)
    requires IsRun(states, actions) && n < |states|
    ensures Inv(states[n])
  {
    if n == 0 {
      InitHolds(states[0]);
    } else {
      RunKeepsInv(states, actions, n - 1);
      assert RunStep(states, actions, n - 1);
      StepPreserves(states[n - 1], actions[n - 1]);
    }
  }

  /** What is on its way: the bytes of a chunk the requestor has not read yet. */
  function InProperty(s: State, key: Key): Bytes {
    if ReaderOf(s, key).inbox != [] then ReadBytes(s, key) else []
  }

  /** What a fed requestor has received, what is on its way and what is still to be sent make up what is due. */
  lemma FedConserves(s: State, key: Key, due: Bytes)
    requires Feeding(ViewOf(s, key), key, due) && Awaits(ViewOf(s, key)) && ReaderOf(s, key).phase.Reading?
    ensures TransferOf(s.owner, key).Some?
    ensures ReaderOf(s, key).phase.buffer + InProperty(s, key) + Unsent(TransferOf(s.owner, key).value) == due
  {
    var v := ViewOf(s, key);
    var r, sent := v.reader, SentAfter(|due|, v.reader.answers);
    assert due[..sent] + due[sent..] == due;
    if Asking(v, key) {
      assert r.phase.buffer + [] == r.phase.buffer;
    }
  }

  /**
   Nothing is lost, duplicated or reordered while a transfer lasts: what was received, what
   is in the property and what is still to be sent make up the selection as it was when it
   was requested, whatever happened to the clipboard since.
   */
  lemma TransferConserves(states: seq<State>, actions: seq<Action>, n: nat, key: Key)
    requires IsRun(states, actions) && n < |states|
    requires ReaderOf(states[n], key).phase.Reading? && TransferOf(states[n].owner, key).Some?
    ensures var s := states[n];
            var r, t := ReaderOf(s, key), TransferOf(s.owner, key).value;
            r.phase.buffer + InProperty(s, key) + Unsent(t) == r.snapshot
  {
    RunKeepsInv(states, actions, n);
    assert HoldsFor(states[n], key);
    FedConserves(states[n], key, ReaderOf(states[n], key).snapshot);
  }

  /** A finished read is the whole selection, after a chunk for every 65536 bytes and one empty chunk. */
  lemma DoneIsWhole(states: seq<State>, actions: seq<Action>, n: nat, key: Key)
    requires IsRun(states, actions) && n < |states| && ReaderOf(states[n], key).phase.Done?
    ensures var r := ReaderOf(states[n], key);
            r.phase.result == r.snapshot &&
            r.answers == if |r.snapshot| > INCR_CHUNK then (|r.snapshot| + INCR_CHUNK - 1) / INCR_CHUNK + 1 else 0
  {
    RunKeepsInv(states, actions, n);
    assert HoldsFor(states[n], key);
  }

  /** The step serves the requestor what is owned at that moment. */
  predicate ServesNow(s: State, a: Action, key: Key) {
    a.OwnerStep? && s.queue != [] && s.queue[0].Request? && s.queue[0].key == key && s.owned.Some? &&
    WriteTarget(s.owner, s.owned, key, s.queue[0].target, s.now).1
  }

  /** The snapshot is the owned selection at the moment the request is served, and stays until the next one. */
  lemma SnapshotIsOwned(s: State, a: Action, key: Key)
    requires WellFormed(s.owner)
    ensures ReaderOf(Apply(s, a), key).snapshot ==
              if ServesNow(s, a, key) then s.owned.value else ReaderOf(s, key).snapshot
  {
  }
}
