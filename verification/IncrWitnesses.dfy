/** Runs that end badly: requestors that ask again too soon, take a late answer, or are not heard any more. */
module IncrWitnesses {
  import opened Options
  import opened IncrSends
  import opened IncrProtocol
  import opened IncrFeeding
  import opened IncrRuns
  import opened IncrProgress
  import opened IncrRestart
  import opened IncrAlone

  /** Nothing asked, nothing sent, and a selection that is owned. */
  function Start0(data: Bytes): State {
    var unused := Slot(Key(0, NONE), OTHER, [], 0, 0.0, false);
    State(Owner([unused, unused, unused, unused], Server(map[], {})), Some(data), [], map[], 0.0)
  }

  /** The transfers are in the first `n` slots and have not expired. */
  ghost predicate Filled(s: State, n: nat) {
    WellFormed(s.owner) && n <= 3 &&
    forall i | 0 <= i < INCR_SENDS :: s.owner.slots[i].active == (i < n) && !Expired(s.owner.slots[i], s.now)
  }

  /** A request at the head of the queue is served from the next slot. */
  lemma ServedNext(s: State, n: nat)
    requires n < 3 && Filled(s, n) && NeedsSlot(s)
    ensures Begins(s) && FreeFrom(Retire(s.owner, s.now).slots, 0) == Some(n) &&
            Retire(s.owner, s.now).slots == s.owner.slots
    ensures var key, t := s.queue[0].key, OwnerHandles(s);
            var slot := Slot(key, s.queue[0].target, s.owned.value, 0, s.now + SEND_TIMEOUT, true);
            t.owner.slots == s.owner.slots[n := slot] &&
            key.window in t.owner.server.watched && t.queue == s.queue[1..] && t.owned == s.owned && t.now == s.now &&
            Filled(t, n + 1)
  {
    RetireSlots(s.owner, s.now);
    assert Retire(s.owner, s.now).slots == s.owner.slots;
    FirstFree(s.owner.slots, 0, n);
  }

  // ---------------------------------------------------------------- reachable states

  /** These steps, all of them allowed, lead from one state to the other. */
  ghost predicate Leads(s: State, actions: seq<Action>, t: State)
    decreases |actions|
  {
    if actions == [] then s == t
    else WellFormed(s.owner) && Allowed(s, actions[0]) && Leads(Apply(s, actions[0]), actions[1..], t)
  }

  lemma LeadsOne(s: State, a: Action, t: State)
    requires WellFormed(s.owner) && Allowed(s, a) && t == Apply(s, a)
    ensures Leads(s, [a], t)
  {
    assert [a][1..] == [];
  }

  lemma {:induction false} LeadsOn(s: State, first: seq<Action>, middle: State, second: seq<Action>, t: State)
    requires Leads(s, first, middle) && Leads(middle, second, t)
    ensures Leads(s, first + second, t)
    decreases |first|
  {
    if first == [] {
      assert first + second == second;
    } else {
      LeadsOn(Apply(s, first[0]), first[1..], middle, second, t);
      LeadsFirst(s, first[0], first[1..] + second, t);
      assert [first[0]] + (first[1..] + second) == first + second;
    }
  }

  lemma LeadsFirst(s: State, a: Action, rest: seq<Action>, t: State)
    requires WellFormed(s.owner) && Allowed(s, a) && Leads(Apply(s, a), rest, t)
    ensures Leads(s, [a] + rest, t)
  {
    assert ([a] + rest)[0] == a && ([a] + rest)[1..] == rest;
  }

  /** What allowed steps lead to from the beginning is the end of a run. */
  lemma {:induction false} LeadsIsRun(s: State, done: seq<State>, past: seq<Action>, actions: seq<Action>, t: State)
    returns (states: seq<State>)
    requires IsRun(done, past) && s == done[|past|] && Leads(s, actions, t)
    ensures IsRun(states, past + actions) && states[|past + actions|] == t
    decreases |actions|
  {
    if actions == [] {
      assert past + actions == past;
      states := done;
    } else {
      var next := Apply(s, actions[0]);
      var more, steps := done + [next], past + [actions[0]];
      forall i | 0 <= i < |steps| ensures RunStep(more, steps, i) {
        if i < |past| {
          assert RunStep(done, past, i);
        }
      }
      states := LeadsIsRun(next, more, steps, actions[1..], t);
      assert steps + actions[1..] == past + actions;
    }
  }

  // ---------------------------------------------------------------- asking

  predicate Fresh(s: State, key: Key) {
    ReaderOf(s, key) == Reader(Idle, [], [], 0) && PropertyOf(s, key) == None
  }

  /** A first request for a large selection is announced. */
  lemma FirstAnnounced(s: State, key: Key, target: TextTarget, n: nat) returns (actions: seq<Action>, t: State)
    requires n < 3 && Filled(s, n) && s.queue == [] && key.atom != NONE && s.owned.Some? && |s.owned.value| > INCR_CHUNK
    requires Fresh(s, key) && TransferOf(s.owner, key) == None
    ensures Leads(s, actions, t) && Filled(t, n + 1) && t.queue == [] && t.owned == s.owned && t.now == s.now
    ensures t.owner.slots == s.owner.slots[n := Slot(key, target, s.owned.value, 0, s.now + SEND_TIMEOUT, true)]
    ensures ReaderOf(t, key) == Reader(Waiting, [NewValue, Notify(true)], s.owned.value, 0)
    ensures PropertyOf(t, key).Some? && PropertyOf(t, key).value.Announce? && key.window in t.owner.server.watched
    ensures forall other | other != key ::
              ReaderOf(t, other) == ReaderOf(s, other) && PropertyOf(t, other) == PropertyOf(s, other)
  {
    var s1 := Apply(s, Start(key, target));
    assert s1.queue == [Request(key, target)] && s1.owner == s.owner;
    ServedNext(s1, n);
    t := Apply(s1, OwnerStep);
    assert [] + [NewValue, Notify(true)] == [NewValue, Notify(true)];
    forall other | other != key
      ensures ReaderOf(t, other) == ReaderOf(s, other) && PropertyOf(t, other) == PropertyOf(s, other)
    {
      RequestProps(s1.owner, s1.owned, key, target, s1.now, other);
    }
    actions := [Start(key, target)] + [OwnerStep];
    LeadsOne(s, Start(key, target), s1);
    LeadsOne(s1, OwnerStep, t);
    LeadsOn(s, [Start(key, target)], s1, [OwnerStep], t);
  }

  /** The requestor reads the announcement and deletes it; the owner hears of it only if it watches the window. */
  lemma AnnouncementRead(s: State, key: Key) returns (actions: seq<Action>, t: State)
    requires WellFormed(s.owner) && ReaderOf(s, key).phase.Waiting? &&
             ReaderOf(s, key).inbox == [NewValue, Notify(true)]
    requires PropertyOf(s, key).Some? && PropertyOf(s, key).value.Announce?
    ensures Leads(s, actions, t) && PropertyOf(t, key) == None && t.owned == s.owned && t.now == s.now
    ensures t.owner.slots == s.owner.slots && t.owner.server.watched == s.owner.server.watched
    ensures ReaderOf(t, key) == ReaderOf(s, key).(inbox := [], phase := Reading([]))
    ensures t.queue == s.queue + if key.window in s.owner.server.watched then [Deleted(key)] else []
  {
    var s1 := Apply(s, ReaderStep(key));
    assert ReaderOf(s1, key).inbox == [Notify(true)];
    t := Apply(s1, ReaderStep(key));
    assert ReaderOf(t, key).inbox == [];
    actions := [ReaderStep(key)] + [ReaderStep(key)];
    LeadsOne(s, ReaderStep(key), s1);
    LeadsOne(s1, ReaderStep(key), t);
    LeadsOn(s, [ReaderStep(key)], s1, [ReaderStep(key)], t);
  }

  // ---------------------------------------------------------------- asking again

  /**
   Having asked for the first chunk, the requestor gives up and asks again; the owner answers
   the old delete first.
   */
  lemma AsksAgain(s: State, key: Key, target: TextTarget) returns (actions: seq<Action>, t: State)
    requires Filled(s, 1) && s.queue == [Deleted(key)] && s.owned.Some? && |s.owned.value| > INCR_CHUNK &&
             key.atom != NONE
    requires s.owner.slots[0] == Slot(key, UTF8_STRING, s.owned.value, 0, s.now + SEND_TIMEOUT, true)
    requires ReaderOf(s, key).phase.Reading? && ReaderOf(s, key).inbox == [] && PropertyOf(s, key) == None
    ensures Leads(s, actions, t) && Filled(t, 1) && t.queue == [Request(key, target)] && t.owned == s.owned
    ensures t.owner.slots[0] == s.owner.slots[0].(sent := INCR_CHUNK) && ReaderOf(t, key).phase.Waiting?
  {
    var s1 := Apply(s, Timeout(key));
    var s2 := Apply(s1, Start(key, target));
    assert s2.queue == [Deleted(key), Request(key, target)];
    assert TransferFrom(s2.owner.slots, key, 0) == Some(0);
    assert |Chunk(s2.owner.slots[0])| == INCR_CHUNK;
    t := Apply(s2, OwnerStep);
    PendingOne(Deleted(key), key);
    LeadsOne(s, Timeout(key), s1);
    LeadsOne(s1, Start(key, target), s2);
    LeadsOne(s2, OwnerStep, t);
    LeadsOn(s, [Timeout(key)], s1, [Start(key, target)], s2);
    LeadsOn(s, [Timeout(key)] + [Start(key, target)], s2, [OwnerStep], t);
    actions := [Timeout(key)] + [Start(key, target)] + [OwnerStep];
  }

  /** The second request, waiting behind a transfer that has sent one chunk. */
  lemma RequestedTwice(key: Key, data: Bytes) returns (actions: seq<Action>, t: State)
    requires |data| > INCR_CHUNK && key.atom != NONE
    ensures Leads(Start0(data), actions, t) && Filled(t, 1) && t.owned == Some(data)
    ensures t.queue == [Request(key, STRING)] && ReaderOf(t, key).phase.Waiting?
    ensures var slot := t.owner.slots[0]; slot.key == key && slot.data == data && slot.sent == INCR_CHUNK
  {
    var s0 := Start0(data);
    var a1, s1 := FirstAnnounced(s0, key, UTF8_STRING, 0);
    var a2, s2 := AnnouncementRead(s1, key);
    var a3, s3 := AsksAgain(s2, key, STRING);
    LeadsOn(s0, a1, s1, a2, s2);
    LeadsOn(s0, a1 + a2, s2, a3, s3);
    actions, t := a1 + a2 + a3, s3;
  }

  /** Every run of IncrRuns is a run in the wider sense of IncrRestart. */
  lemma RunIsAnyRun(states: seq<State>, actions: seq<Action>)
    requires IsRun(states, actions)
    ensures IsAnyRun(states, actions)
  {
    forall i | 0 <= i < |actions| ensures AnyStep(states, actions, i) {
      assert RunStep(states, actions, i);
    }
  }

  /** A run at whose end a second request is about to be served beside a transfer that has sent one chunk. */
  lemma RivalIsReachable(key: Key, data: Bytes) returns (states: seq<State>, actions: seq<Action>, t: State)
    requires |data| > INCR_CHUNK && key.atom != NONE
    ensures IsAnyRun(states, actions) && t == states[|actions|] && t.owned == Some(data)
    ensures WellFormed(t.owner) && Begins(t) && Asked(t) && t.queue == [Request(key, STRING)]
    ensures Rival(t).Some? && Due(t) == data[INCR_CHUNK..]
  {
    var s0 := Start0(data);
    actions, t := RequestedTwice(key, data);
    states := LeadsIsRun(s0, [s0], [], actions, t);
    assert [] + actions == actions;
    RunIsAnyRun(states, actions);
    AnyRunShaped(states, actions, |actions|);
    ServedNext(t, 1);
    ShapedAsked(t);
    assert TransferFrom(t.owner.slots, key, 0) == Some(0);
  }

  /**
   A run, for any selection of more than one chunk, in which the requestor gives up on
   UTF8_STRING after one chunk and asks for STRING. Its second read goes undisturbed to its
   end, and the chunk is missing.
   */
  lemma RestartLosesData(key: Key, data: Bytes) returns (states: seq<State>, actions: seq<Action>)
    requires |data| > INCR_CHUNK && key.atom != NONE
    ensures IsAnyRun(states, actions)
    ensures var r := ReaderOf(states[|actions|], key);
            r.snapshot == data && r.phase == Done(data[INCR_CHUNK..]) && r.phase.result != data
  {
    var t;
    states, actions, t := RivalIsReachable(key, data);
    var served := OwnerHandles(t);
    var _, _, m := RivalReadFinishes(t);
    states, actions := AnyRunOn(states, actions, OwnerStep, served);
    states, actions := TurnsOn(states, actions, served, key, m);
  }

  // ---------------------------------------------------------------- answers that come late

  lemma Onward(states: seq<State>, actions: seq<Action>, a: Action, t: State)
    returns (more: seq<State>, steps: seq<Action>)
    requires Unruly(states, actions) && WellFormed(states[|actions|].owner) && t == Apply(states[|actions|], a)
    ensures Unruly(more, steps) && more[|steps|] == t
  {
    more, steps := states + [t], actions + [a];
    forall i | 0 <= i < |steps| ensures Happens(more, steps, i) {
      if i < |actions| {
        assert Happens(states, actions, i);
      }
    }
  }

  lemma AskedTwice(key: Key, text: Bytes) returns (s1: State, s2: State, s3: State)
    ensures s1 == Apply(Start0(text), Start(key, UTF8_STRING)) && s2 == Apply(s1, Timeout(key))
    ensures s3 == Apply(s2, Start(key, STRING)) && s3.owner == Start0(text).owner && s3.owned == Some(text)
    ensures s3.queue == [Request(key, UTF8_STRING), Request(key, STRING)]
    ensures ReaderOf(s3, key) == Reader(Waiting, [], [], 0) && WellFormed(s1.owner) && WellFormed(s2.owner)
  {
    s1 := Apply(Start0(text), Start(key, UTF8_STRING));
    s2 := Apply(s1, Timeout(key));
    s3 := Apply(s2, Start(key, STRING));
  }

  /** A short text is served, read and deleted. */
  lemma ShortRead(s: State, key: Key) returns (s1: State, s2: State, s3: State)
    requires WellFormed(s.owner) && s.queue != [] && s.queue[0].Request? && s.queue[0].key == key && key.atom != NONE
    requires ReaderOf(s, key) == Reader(Waiting, [], [], 0) && s.owned.Some? && 0 < |s.owned.value| <= INCR_CHUNK
    ensures s1 == Apply(s, OwnerStep) && s2 == Apply(s1, ReaderStep(key)) && s3 == Apply(s2, ReaderStep(key))
    ensures WellFormed(s1.owner) && WellFormed(s2.owner) && s3.owner.slots == s.owner.slots
    ensures key.window !in s.owner.server.watched ==> s3.queue == s.queue[1..]
    ensures ReaderOf(s3, key).phase == Done(s.owned.value) && ReaderOf(s3, key).inbox == []
  {
    s1 := Apply(s, OwnerStep);
    assert ReaderOf(s1, key).inbox == [NewValue, Notify(true)] && s1.queue == s.queue[1..];
    assert PropertyOf(s1, key).Some? && ValueOf(PropertyOf(s1, key).value) == s.owned.value;
    s2 := Apply(s1, ReaderStep(key));
    assert ReaderOf(s2, key).inbox == [Notify(true)] && s2.owner == s1.owner && s2.queue == s1.queue;
    s3 := Apply(s2, ReaderStep(key));
  }

  /** The second request is served when its reader has long gone on. */
  lemma LateAnswer(s: State, key: Key, text: Bytes) returns (s1: State, s2: State)
    requires WellFormed(s.owner) && s.queue == [Request(key, STRING)] && key.atom != NONE && |text| <= INCR_CHUNK
    ensures s1 == Apply(s, SetClipboard(Some(text))) && s2 == Apply(s1, OwnerStep) && WellFormed(s1.owner)
    ensures ReaderOf(s2, key).phase == ReaderOf(s, key).phase && ReaderOf(s2, key).snapshot == text
  {
    s1 := Apply(s, SetClipboard(Some(text)));
    s2 := Apply(s1, OwnerStep);
  }

  /**
   A requestor that asks again before its first request was answered takes that answer for the
   second one: its second read ends with what was owned before the second request was served.
   */
  lemma StaleAnswerTaken(key: Key, before: Bytes, after: Bytes) returns (states: seq<State>, actions: seq<Action>)
    requires key.atom != NONE && 0 < |before| <= INCR_CHUNK && 0 < |after| <= INCR_CHUNK
    ensures Unruly(states, actions)
    ensures var r := ReaderOf(states[|actions|], key); r.phase == Done(before) && r.snapshot == after
  {
    var s1, s2, s3 := AskedTwice(key, before);
    states, actions := [Start0(before)], [];
    states, actions := Onward(states, actions, Start(key, UTF8_STRING), s1);
    states, actions := Onward(states, actions, Timeout(key), s2);
    states, actions := Onward(states, actions, Start(key, STRING), s3);
    var s4, s5, s6 := ShortRead(s3, key);
    states, actions := Onward(states, actions, OwnerStep, s4);
    states, actions := Onward(states, actions, ReaderStep(key), s5);
    states, actions := Onward(states, actions, ReaderStep(key), s6);
    var s7, s8 := LateAnswer(s6, key, after);
    states, actions := Onward(states, actions, SetClipboard(Some(after)), s7);
    states, actions := Onward(states, actions, OwnerStep, s8);
  }

  // ---------------------------------------------------------------- unheard

  /** Serving a request retires the first transfer, and with it the watch on the window of the second. */
  lemma RetiredForOther(s: State, first: Key, second: Key)
    requires WellFormed(s.owner) && NeedsSlot(s) && first != second &&
             first.window == second.window != s.queue[0].key.window
    requires s.owner.slots[0].active && s.owner.slots[0].key == first && Expired(s.owner.slots[0], s.now)
    requires s.owner.slots[1].active && s.owner.slots[1].key == second && !Expired(s.owner.slots[1], s.now)
    requires !s.owner.slots[2].active && !s.owner.slots[3].active
    ensures var t := OwnerHandles(s);
            WellFormed(t.owner) && second.window !in t.owner.server.watched &&
            TransferOf(t.owner, second) == Some(s.owner.slots[1]) && PropertyOf(t, second) == PropertyOf(s, second)
    ensures Distinctly(s)
  {
    var t, key := OwnerHandles(s), s.queue[0].key;
    RetireSlots(s.owner, s.now);
    FirstFree(Retire(s.owner, s.now).slots, 0, 0);
    WatchStep(s, OwnerStep, second.window);
    RequestProps(s.owner, s.owned, key, s.queue[0].target, s.now, second);
    FirstKept(t.owner.slots, second, 0, 1);
  }

  /** A third request finds the first transfer expired: ending it blinds the owner to the window of the second. */
  lemma FirstRetired(s: State, key: Key, first: Key, second: Key) returns (actions: seq<Action>, t: State)
    requires WellFormed(s.owner) && s.queue == [] && key.atom != NONE && s.owned.Some? && |s.owned.value| > INCR_CHUNK
    requires Fresh(s, key) && first.window == second.window != key.window && first != second
    requires s.owner.slots[0].active && s.owner.slots[0].key == first && Expired(s.owner.slots[0], s.now)
    requires s.owner.slots[1].active && s.owner.slots[1].key == second && !Expired(s.owner.slots[1], s.now)
    requires !s.owner.slots[2].active && !s.owner.slots[3].active
    ensures Leads(s, actions, t) && WellFormed(t.owner) && t.queue == [] && t.now == s.now
    ensures second.window !in t.owner.server.watched && TransferOf(t.owner, second) == Some(s.owner.slots[1])
    ensures ReaderOf(t, second) == ReaderOf(s, second) && PropertyOf(t, second) == PropertyOf(s, second)
  {
    var s1 := Apply(s, Start(key, UTF8_STRING));
    assert s1.queue == [Request(key, UTF8_STRING)] && s1.owner == s.owner && s1.owned == s.owned && s1.now == s.now;
    assert ReaderOf(s1, second) == ReaderOf(s, second);
    t := Apply(s1, OwnerStep);
    RetiredForOther(s1, first, second);
    LeadsOne(s, Start(key, UTF8_STRING), s1);
    LeadsOne(s1, OwnerStep, t);
    LeadsOn(s, [Start(key, UTF8_STRING)], s1, [OwnerStep], t);
    actions := [Start(key, UTF8_STRING)] + [OwnerStep];
  }

  /** Two transfers to one window, the second six seconds after the first. */
  lemma BothAnnounced(first: Key, second: Key, data: Bytes) returns (actions: seq<Action>, t: State)
    requires |data| > INCR_CHUNK && first.atom != NONE && second.atom != NONE && first != second
    ensures Leads(Start0(data), actions, t) && WellFormed(t.owner) && t.queue == [] && t.now == 6.0 &&
            t.owned == Some(data)
    ensures t.owner.slots[0] == Slot(first, UTF8_STRING, data, 0, 10.0, true)
    ensures t.owner.slots[1] == Slot(second, UTF8_STRING, data, 0, 16.0, true)
    ensures !t.owner.slots[2].active && !t.owner.slots[3].active
    ensures ReaderOf(t, second) == Reader(Waiting, [NewValue, Notify(true)], data, 0)
    ensures PropertyOf(t, second).Some? && PropertyOf(t, second).value.Announce?
    ensures forall other | other != first && other != second :: Fresh(t, other)
  {
    var s0 := Start0(data);
    assert forall other :: Fresh(s0, other);
    var a1, s1 := FirstAnnounced(s0, first, UTF8_STRING, 0);
    var s2 := Apply(s1, Elapse(6.0));
    LeadsOne(s1, Elapse(6.0), s2);
    forall other | other != first ensures Fresh(s2, other) {
      assert Fresh(s0, other);
      assert ReaderOf(s1, other) == ReaderOf(s0, other) && PropertyOf(s1, other) == PropertyOf(s0, other);
      assert ReaderOf(s2, other) == ReaderOf(s1, other) && PropertyOf(s2, other) == PropertyOf(s1, other);
    }
    assert TransferFrom(s2.owner.slots, second, 0) == None;
    var a3, s3 := FirstAnnounced(s2, second, UTF8_STRING, 1);
    LeadsOn(s0, a1, s1, [Elapse(6.0)], s2);
    LeadsOn(s0, a1 + [Elapse(6.0)], s2, a3, s3);
    actions, t := a1 + [Elapse(6.0)] + a3, s3;
    forall other | other != first && other != second ensures Fresh(t, other) {
      assert Fresh(s2, other);
    }
  }

  /**
   A run in which one requestor has two transfers on one window. When the first has expired and
   is retired for somebody else, the delete that asks for the second's first chunk is not
   reported, although its transfer is live: the read is stalled.
   */
  lemma BlindWindowStalls(first: Key, second: Key, third: Key, data: Bytes)
    returns (states: seq<State>, actions: seq<Action>, t: State)
    requires |data| > INCR_CHUNK && first.atom != NONE && second.atom != NONE && third.atom != NONE
    requires first != second && first.window == second.window != third.window
    ensures IsRun(states, actions) && t == states[|actions|]
    ensures Stalled(t, second, []) && ReaderOf(t, second).snapshot == data
    ensures TransferOf(t.owner, second).Some? && !Expired(TransferOf(t.owner, second).value, t.now)
  {
    var s0 := Start0(data);
    var a1, s1 := BothAnnounced(first, second, data);
    assert Fresh(s1, third);
    var s2 := Apply(s1, Elapse(5.0));
    LeadsOne(s1, Elapse(5.0), s2);
    assert ReaderOf(s2, third) == ReaderOf(s1, third) && PropertyOf(s2, third) == PropertyOf(s1, third);
    assert ReaderOf(s2, second) == ReaderOf(s1, second) && PropertyOf(s2, second) == PropertyOf(s1, second);
    var a3, s3 := FirstRetired(s2, third, first, second);
    var a4, s4 := AnnouncementRead(s3, second);
    LeadsOn(s0, a1, s1, [Elapse(5.0)], s2);
    LeadsOn(s0, a1 + [Elapse(5.0)], s2, a3, s3);
    LeadsOn(s0, a1 + [Elapse(5.0)] + a3, s3, a4, s4);
    actions, t := a1 + [Elapse(5.0)] + a3 + a4, s4;
    states := LeadsIsRun(s0, [s0], [], actions, t);
    assert [] + actions == actions;
  }
}
