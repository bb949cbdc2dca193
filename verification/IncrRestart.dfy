/**
 Asking again: what a requestor reads when an earlier transfer of its property is still alive
 at the moment its new request is served.
 */
module IncrRestart {
  import opened Options
  import opened IncrSends
  import opened IncrProtocol
  import opened IncrFeeding
  import opened IncrRuns
  import opened IncrProgress

  // ---------------------------------------------------------------- every run, restarts included

  /** What holds of a conversation whoever answers it. */
  ghost predicate Shaped(v: View, key: Key) {
    match v.reader.phase
    case Waiting =>
      (Requested(v, key) && OnlyNewValues(v.reader.inbox)) ||
      (v.pending == [] && (Notified(v.reader.inbox, true) || Notified(v.reader.inbox, false)))
    case Reading(_) => Asking(v, key) || Answering(v)
    case _ => Quiet(v, key) || (v.reader.phase.Failed? && Requested(v, key))
  }

  ghost predicate ShapeInv(s: State) {
    WellFormed(s.owner) && forall key :: Shaped(ViewOf(s, key), key)
  }

  lemma DeletedShaped(s: State, key: Key)
    requires WellFormed(s.owner) && Shaped(ViewOf(s, key), key) && s.queue != [] && s.queue[0] == Deleted(key)
    ensures Shaped(ViewOf(OwnerHandles(s), key), key)
  {
    var v, rest := ViewOf(s, key), s.(queue := s.queue[1..]);
    assert v.pending == [Deleted(key)] + Pending(rest.queue, key);
    if v.transfer.Some? {
      AnswerView(rest, key);
    }
  }

  lemma RequestShaped(s: State, key: Key)
    requires WellFormed(s.owner) && Shaped(ViewOf(s, key), key)
    requires s.queue != [] && s.queue[0].Request? && s.queue[0].key == key
    ensures Shaped(ViewOf(OwnerHandles(s), key), key)
  {
    var v, rest := ViewOf(s, key), s.queue[1..];
    assert v.pending == [s.queue[0]] + Pending(rest, key);
    assert Requested(v, key) && Pending(rest, key) == [];
    if OnlyNewValues(v.reader.inbox) {
      NotifyEnds(v.reader.inbox, true);
      NotifyEnds(v.reader.inbox, false);
    }
  }

  lemma SkipShaped(v: View, key: Key, rest: seq<Notice>)
    requires Shaped(v, key) && v.reader.phase.Waiting? && |v.reader.inbox| > 1 && rest == v.reader.inbox[1..]
    ensures v.reader.inbox[0] == NewValue && Shaped(v.(reader := v.reader.(inbox := rest)), key)
  {
    var inbox := v.reader.inbox;
    assert rest[..|rest| - 1] == inbox[..|inbox| - 1][1..];
    assert inbox[0] == inbox[..|inbox| - 1][0];
  }

  lemma ChunkShaped(s: State, key: Key)
    requires Shaped(ViewOf(s, key), key) && ReaderOf(s, key).phase.Reading? && ReaderOf(s, key).inbox != []
    ensures Shaped(ViewOf(ReaderHandles(s, key), key), key)
  {
    DeleteView(s, key, key);
    assert ReaderOf(s, key).inbox[1..] == [];
  }

  lemma FirstShaped(s: State, key: Key)
    requires Shaped(ViewOf(s, key), key) && ReaderOf(s, key).phase.Waiting? && |ReaderOf(s, key).inbox| == 1
    ensures Shaped(ViewOf(ReaderHandles(s, key), key), key)
  {
    var r := ReaderOf(s, key);
    assert r.inbox[1..] == [];
    if r.inbox[0] == Notify(true) {
      assert Pending(s.queue, key) == [];
      DeleteView(s, key, key);
    }
  }

  lemma ReaderShaped(s: State, key: Key)
    requires Shaped(ViewOf(s, key), key)
    ensures Shaped(ViewOf(ReaderHandles(s, key), key), key)
  {
    var v, r := ViewOf(s, key), ReaderOf(s, key);
    if r.inbox != [] {
      var skipped := v.(reader := r.(inbox := r.inbox[1..]));
      if r.phase.Waiting? && |r.inbox| > 1 {
        SkipShaped(v, key, r.inbox[1..]);
        assert ViewOf(ReaderHandles(s, key), key) == skipped;
      } else if r.phase.Waiting? {
        FirstShaped(s, key);
      } else if r.phase.Reading? {
        ChunkShaped(s, key);
      } else {
        assert ViewOf(ReaderHandles(s, key), key) == skipped;
      }
    }
  }

  lemma StartShaped(s: State, key: Key, target: TextTarget)
    requires Shaped(ViewOf(s, key), key) && (!Busy(ReaderOf(s, key)) ==> Answered(s, key))
    ensures Shaped(ViewOf(StartReading(s, key, target), key), key)
  {
    if !Busy(ReaderOf(s, key)) {
      var d := DeleteProperty(s, key);
      DeleteView(s, key, key);
      PendingAppend(d.queue, [Request(key, target)], key);
      PendingOne(Request(key, target), key);
      assert forall i | 0 <= i < |Pending(s.queue, key)| :: Pending(s.queue, key)[i] == Deleted(key);
    }
  }

  /** Every step keeps the shape of every conversation, with any number of transfers for one property. */
  lemma ShapeStep(s: State, a: Action)
    requires ShapeInv(s) && Patient(s, a)
    ensures ShapeInv(Apply(s, a))
  {
    StepKeepsForm(s, a);
    forall key ensures Shaped(ViewOf(Apply(s, a), key), key) {
      assert Shaped(ViewOf(s, key), key);
      if !Concerns(s, a, key) {
        OthersElsewhere(s, a, key);
      } else {
        OwnStepShaped(s, a, key);
      }
    }
  }

  lemma OwnStepShaped(s: State, a: Action, key: Key)
    requires WellFormed(s.owner) && Shaped(ViewOf(s, key), key) && Concerns(s, a, key)
    requires Patient(s, a)
    ensures Shaped(ViewOf(Apply(s, a), key), key)
  {
    match a
    case Start(_, target) => StartShaped(s, key, target);
    case OwnerStep => if s.queue[0].Deleted? { DeletedShaped(s, key); } else { RequestShaped(s, key); }
    case ReaderStep(_) => ReaderShaped(s, key);
    case Timeout(_) =>
  }

  /** Any run at all in which a requestor awaits its answer before it asks again. */
  ghost predicate IsAnyRun(states: seq<State>, actions: seq<Action>) {
    |states| == |actions| + 1 && Init(states[0]) && forall i | 0 <= i < |actions| :: AnyStep(states, actions, i)
  }

  ghost predicate AnyStep(states: seq<State>, actions: seq<Action>, i: nat)
    requires i < |actions| < |states|
  {
    Happens(states, actions, i) && Patient(states[i], actions[i])
  }

  lemma {:induction false} AnyRunShaped(states: seq<State>, actions: seq<Action>, n: nat)
    requires IsAnyRun(states, actions) && n < |states|
    ensures ShapeInv(states[n])
  {
    if n == 0 {
      InitHolds(states[0]);
      forall key ensures Shaped(ViewOf(states[0], key), key) {
        assert HoldsFor(states[0], key);
      }
    } else {
      AnyRunShaped(states, actions, n - 1);
      assert AnyStep(states, actions, n - 1);
      ShapeStep(states[n - 1], actions[n - 1]);
    }
  }

  // ---------------------------------------------------------------- who answers a read

  /** A live transfer of the property in an earlier slot than the one the request will get. */
  function Rival(s: State): Option<Slot>
    requires Begins(s)
  {
    var slots := Retire(s.owner, s.now).slots;
    match TransferFrom(slots, s.queue[0].key, 0)
    case None => None
    case Some(i) => if i < FreeFrom(slots, 0).value then Some(slots[i]) else None
  }

  /** What the requestor will be fed: the rest of the rival, or the selection just requested. */
  function Due(s: State): Bytes
    requires Begins(s)
  {
    if Rival(s).Some? then Unsent(Rival(s).value) else s.owned.value
  }

  lemma FirstAfterServing(s: State)
    requires WellFormed(s.owner) && Begins(s)
    ensures var key := s.queue[0].key;
            TransferOf(OwnerHandles(s).owner, key) ==
              Some(if Rival(s).Some? then Rival(s).value
                   else Slot(key, s.queue[0].target, s.owned.value, 0, s.now + SEND_TIMEOUT, true))
  {
    var key, slots, n := s.queue[0].key, Retire(s.owner, s.now).slots, OwnerHandles(s).owner.slots;
    var j := FreeFrom(slots, 0).value;
    if Rival(s).Some? {
      FirstKept(n, key, 0, TransferFrom(slots, key, 0).value);
    } else {
      FirstKept(n, key, 0, j);
    }
  }

  /** The requestor waits for the answer to the request at the head of the queue, and to no other. */
  ghost predicate Asked(s: State) {
    s.queue != [] && s.queue[0].Request? &&
    var key := s.queue[0].key;
    ReaderOf(s, key).phase.Waiting? && Pending(s.queue, key) == [s.queue[0]] && OnlyNewValues(ReaderOf(s, key).inbox)
  }

  /** In every state of every run a requestor that waits has asked once. */
  lemma ShapedAsked(s: State)
    requires ShapeInv(s) && s.queue != [] && s.queue[0].Request? && ReaderOf(s, s.queue[0].key).phase.Waiting?
    ensures Asked(s)
  {
    var v := ViewOf(s, s.queue[0].key);
    assert Shaped(v, s.queue[0].key);
    assert v.pending == [s.queue[0]] + Pending(s.queue[1..], s.queue[0].key);
  }

  /** Serving a large selection announces it. */
  lemma ServingAnnounces(s: State)
    requires WellFormed(s.owner) && Begins(s) && Asked(s)
    ensures Announced(ViewOf(OwnerHandles(s), s.queue[0].key)) && WellFormed(OwnerHandles(s).owner)
    ensures var r := ReaderOf(OwnerHandles(s), s.queue[0].key); r.phase.Waiting? && r.snapshot == s.owned.value
  {
    var key, rest := s.queue[0].key, s.queue[1..];
    assert Pending(s.queue, key) == [s.queue[0]] + Pending(rest, key);
    assert Pending(rest, key) == [];
    NotifyEnds(ReaderOf(s, key).inbox, true);
    StepKeepsForm(s, OwnerStep);
  }

  /** Serving a large selection starts feeding the requestor. */
  lemma ServingFeeds(s: State)
    requires WellFormed(s.owner) && Begins(s) && Asked(s)
    ensures Fed(OwnerHandles(s), s.queue[0].key, Due(s))
    ensures ReaderOf(OwnerHandles(s), s.queue[0].key).snapshot == s.owned.value
  {
    var key := s.queue[0].key;
    ServingAnnounces(s);
    FirstAfterServing(s);
    AnnouncedFeeds(ViewOf(OwnerHandles(s), key), key);
  }

  /**
   Exactly when a read is whole: no live transfer of the property stands in an earlier slot, or
   what that one has still to send is the very selection that was requested.
   */
  lemma ReadIsWholeIff(s: State, states: seq<State>, actions: seq<Action>, n: nat)
    requires WellFormed(s.owner) && Begins(s) && Asked(s)
    requires Continues(states, actions, s.queue[0].key) && states[0] == OwnerHandles(s) && n < |states|
    requires ReaderOf(states[n], s.queue[0].key).phase.Done?
    ensures var r := ReaderOf(states[n], s.queue[0].key);
            r.snapshot == s.owned.value &&
            (r.phase.result == r.snapshot <==> Rival(s).None? || Unsent(Rival(s).value) == s.owned.value)
  {
    ServingFeeds(s);
    FeedingContinues(states, actions, s.queue[0].key, Due(s), n);
  }

  /** A rival that has sent something of the same selection makes the read lose it. */
  lemma StartedRivalLoses(s: State, states: seq<State>, actions: seq<Action>, n: nat)
    requires WellFormed(s.owner) && Begins(s) && Asked(s)
    requires Rival(s).Some? && Rival(s).value.data == s.owned.value && Rival(s).value.sent > 0
    requires Continues(states, actions, s.queue[0].key) && states[0] == OwnerHandles(s) && n < |states|
    requires ReaderOf(states[n], s.queue[0].key).phase.Done?
    ensures |ReaderOf(states[n], s.queue[0].key).phase.result| < |ReaderOf(states[n], s.queue[0].key).snapshot|
  {
    ServingFeeds(s);
    FeedingContinues(states, actions, s.queue[0].key, Due(s), n);
  }

  /** Until it gets the empty chunk, such a read is short of exactly what its transfer has still to send. */
  lemma RestartConserves(s: State, states: seq<State>, actions: seq<Action>, n: nat)
    requires WellFormed(s.owner) && Begins(s) && Asked(s)
    requires Continues(states, actions, s.queue[0].key) && states[0] == OwnerHandles(s) && n < |states|
    requires ReaderOf(states[n], s.queue[0].key).phase.Reading? && Awaits(ViewOf(states[n], s.queue[0].key))
    ensures var key := s.queue[0].key;
            TransferOf(states[n].owner, key).Some? &&
            ReaderOf(states[n], key).phase.buffer + InProperty(states[n], key) +
            Unsent(TransferOf(states[n].owner, key).value) == Due(s)
  {
    ServingFeeds(s);
    FeedingContinues(states, actions, s.queue[0].key, Due(s), n);
    FedConserves(states[n], s.queue[0].key, Due(s));
  }

  /** The same of whole runs: a large selection served at time k, and its read over at time n. */
  lemma RunReadIsWholeIff(states: seq<State>, actions: seq<Action>, k: nat, n: nat, key: Key)
    requires IsAnyRun(states, actions) && k < n < |states|
    requires actions[k] == OwnerStep && Begins(states[k]) && states[k].queue[0].key == key
    requires ReaderOf(states[k], key).phase.Waiting? && ReaderOf(states[n], key).phase.Done?
    requires forall i | k < i < n :: Undisturbed(states[i], actions[i], key)
    ensures var r := ReaderOf(states[n], key);
            r.snapshot == states[k].owned.value &&
            (r.phase.result == r.snapshot <==>
               Rival(states[k]).None? || Unsent(Rival(states[k]).value) == states[k].owned.value)
  {
    AnyRunShaped(states, actions, k);
    ShapedAsked(states[k]);
    assert AnyStep(states, actions, k);
    var rest, steps := states[k + 1..n + 1], actions[k + 1..n];
    forall i | 0 <= i < |steps| ensures GoesOn(rest, steps, key, i) {
      assert AnyStep(states, actions, k + 1 + i);
    }
    ReadIsWholeIff(states[k], rest, steps, |steps|);
  }

  /** With fair turns the read does finish, and with exactly these bytes. */
  lemma RestartedReadFinishes(s: State, run: nat -> State, act: nat -> Action) returns (m: nat)
    requires WellFormed(s.owner) && Begins(s) && Asked(s)
    requires run(0) == OwnerHandles(s) && Fair(run, act, s.queue[0].key)
    ensures ReaderOf(run(m), s.queue[0].key).phase == Done(Due(s))
  {
    var key := s.queue[0].key;
    ServingFeeds(s);
    m := FairReadFinishes(run, act, key, Due(s), 0);
  }

  // ---------------------------------------------------------------- answers to earlier requests

  /** What a waiting requestor makes of the answer to the request at the head of the queue. */
  function AnswerTo(s: State): Phase
    requires s.queue != [] && s.queue[0].Request?
  {
    if !WriteTarget(s.owner, s.owned, s.queue[0].key, s.queue[0].target, s.now).1 then Failed
    else if |s.owned.value| > INCR_CHUNK then Reading([])
    else if s.owned.value == [] then Failed
    else Done(s.owned.value)
  }

  /** The owner gets to nothing else of the conversation, and the requestor does not give up. */
  ghost predicate OnlyReads(states: seq<State>, actions: seq<Action>, key: Key) {
    |states| == |actions| + 1 &&
    forall i | 0 <= i < |actions| ::
      Happens(states, actions, i) &&
      (Concerns(states[i], actions[i], key) ==> actions[i].ReaderStep? || actions[i].Start?)
  }

  /** The answer lies ready: a refusal, or this property. */
  ghost predicate AnswerReady(v: View, ok: bool, property: Option<Property>) {
    v.reader.phase.Waiting? && Notified(v.reader.inbox, ok) && (ok ==> v.property == property)
  }

  lemma AnswerIsReady(s: State)
    requires WellFormed(s.owner) && s.queue != [] && s.queue[0].Request?
    requires ReaderOf(s, s.queue[0].key).phase.Waiting? && OnlyNewValues(ReaderOf(s, s.queue[0].key).inbox)
    ensures WellFormed(OwnerHandles(s).owner)
    ensures Pending(OwnerHandles(s).queue, s.queue[0].key) == Pending(s.queue[1..], s.queue[0].key)
    ensures var t, key := OwnerHandles(s), s.queue[0].key;
            var ok := WriteTarget(s.owner, s.owned, key, s.queue[0].target, s.now).1;
            AnswerReady(ViewOf(t, key), ok, PropertyOf(t, key))
  {
    NotifyEnds(ReaderOf(s, s.queue[0].key).inbox, true);
    NotifyEnds(ReaderOf(s, s.queue[0].key).inbox, false);
    StepKeepsForm(s, OwnerStep);
  }

  /** The first look at the property after the answer. */
  function Taken(ok: bool, property: Option<Property>): (phase: Phase)
    ensures !phase.Waiting?
  {
    if !ok || property.None? then Failed
    else if property.value.Announce? then Reading([])
    else if ValueOf(property.value) == [] then Failed
    else Done(ValueOf(property.value))
  }

  lemma ReadyRead(s: State, key: Key, ok: bool, property: Option<Property>)
    requires AnswerReady(ViewOf(s, key), ok, property)
    ensures var t := ReaderHandles(s, key);
            AnswerReady(ViewOf(t, key), ok, property) || ReaderOf(t, key).phase == Taken(ok, property)
  {
    var inbox, t := ReaderOf(s, key).inbox, ReaderHandles(s, key);
    var rest := inbox[1..];
    if |inbox| > 1 {
      assert inbox[0] == inbox[..|inbox| - 1][0] == NewValue;
      assert rest[..|rest| - 1] == inbox[..|inbox| - 1][1..];
      assert Notified(rest, ok) && t == WithReader(s, key, ReaderOf(s, key).(inbox := rest));
    } else {
      assert inbox[0] == Notify(ok);
    }
  }

  lemma ReadyStep(s: State, a: Action, key: Key, ok: bool, property: Option<Property>)
    requires WellFormed(s.owner) && AnswerReady(ViewOf(s, key), ok, property)
    requires Concerns(s, a, key) ==> a.ReaderStep? || a.Start?
    ensures var t := Apply(s, a);
            AnswerReady(ViewOf(t, key), ok, property) || ReaderOf(t, key).phase == Taken(ok, property)
    ensures Pending(s.queue, key) <= Pending(Apply(s, a).queue, key)
  {
    if !Concerns(s, a, key) {
      OthersElsewhere(s, a, key);
      assert ViewOf(Apply(s, a), key).(transfer := None).reader == ViewOf(s, key).(transfer := None).reader;
    } else if a.ReaderStep? {
      DeleteView(s, key, key);
      ReadyRead(s, key, ok, property);
    }
  }

  /**
   A read that waits while several requests are unanswered takes the answer to the first of
   them, whatever it is; the others are still in the queue when it does.
   */
  lemma FirstAnswerTaken(s: State, states: seq<State>, actions: seq<Action>, n: nat)
    requires WellFormed(s.owner) && s.queue != [] && s.queue[0].Request?
    requires ReaderOf(s, s.queue[0].key).phase.Waiting? && OnlyNewValues(ReaderOf(s, s.queue[0].key).inbox)
    requires OnlyReads(states, actions, s.queue[0].key) && states[0] == OwnerHandles(s) && n < |states|
    requires forall i | 0 <= i < n :: ReaderOf(states[i], s.queue[0].key).phase.Waiting?
    ensures var key := s.queue[0].key;
            (ReaderOf(states[n], key).phase.Waiting? || ReaderOf(states[n], key).phase == AnswerTo(s)) &&
            Pending(s.queue[1..], key) <= Pending(states[n].queue, key)
  {
    AnswerIsReady(s);
    var key, t := s.queue[0].key, OwnerHandles(s);
    var ok := WriteTarget(s.owner, s.owned, key, s.queue[0].target, s.now).1;
    ReadyUntilTaken(states, actions, key, ok, PropertyOf(t, key), n);
    assert Taken(ok, PropertyOf(t, key)) == AnswerTo(s);
  }

  lemma PrefixOf(a: seq<OwnerEvent>, b: seq<OwnerEvent>, c: seq<OwnerEvent>)
    requires a <= b <= c
    ensures a <= c
  {
  }

  lemma {:induction false} ReadyUntilTaken(states: seq<State>, actions: seq<Action>, key: Key, ok: bool,
                                           property: Option<Property>, n: nat)
    requires OnlyReads(states, actions, key) && n < |states| && AnswerReady(ViewOf(states[0], key), ok, property)
    requires forall i | 0 <= i < n :: ReaderOf(states[i], key).phase.Waiting?
    ensures AnswerReady(ViewOf(states[n], key), ok, property) || ReaderOf(states[n], key).phase == Taken(ok, property)
    ensures Pending(states[0].queue, key) <= Pending(states[n].queue, key)
  {
    if n > 0 {
      var before, a := states[n - 1], actions[n - 1];
      ReadyUntilTaken(states, actions, key, ok, property, n - 1);
      assert ReaderOf(before, key).phase.Waiting? && AnswerReady(ViewOf(before, key), ok, property);
      assert Happens(states, actions, n - 1);
      ReadyStep(before, a, key, ok, property);
      PrefixOf(Pending(states[0].queue, key), Pending(before.queue, key), Pending(states[n].queue, key));
    }
  }
}
