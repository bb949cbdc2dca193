/**
 A process that reads a selection serves its own meanwhile: the loop of `nack__xcb_read_incr`,
 the events it hands on, and what it returns along a run of the protocol.
 */
module IncrReader {
  import opened Options
  import opened IncrSends
  import opened IncrProtocol
  import opened IncrFeeding
  import opened IncrRuns

  datatype Event =
    | PropertyNotify(key: Key, deleted: bool)
    | SelectionRequest(key: Key, target: Target)
    | SelectionClear
    | Input

  /** An event with the time it is handled at, and what reading the requestor's own property then gives. */
  datatype Turn = Turn(event: Event, now: real, value: Option<Bytes>)

  /** What a process serves. */
  datatype Client = Client(owner: Owner, owned: Option<Bytes>)

  // ---------------------------------------------------------------- specification

  ghost function Dispatched(c: Client, t: Turn): (n: Client)
    requires WellFormed(c.owner)
    ensures WellFormed(n.owner)
  {
    match t.event
    case PropertyNotify(key, deleted) => if deleted then c.(owner := AnswerDelete(c.owner, key, t.now)) else c
    case SelectionRequest(key, target) =>
      RequestKeepsForm(c.owner, c.owned, key, target, t.now);
      c.(owner := WriteTarget(c.owner, c.owned, key, target, t.now).0)
    case SelectionClear => c.(owned := None)
    case Input => c
  }

  /** A process that does nothing but dispatch the events from one to another. */
  ghost function DispatchedAll(c: Client, turns: seq<Turn>, from: nat, until: nat): (n: Client)
    requires WellFormed(c.owner) && from <= until <= |turns|
    ensures WellFormed(n.owner)
    decreases until - from
  {
    if from == until then c else Dispatched(DispatchedAll(c, turns, from, until - 1), turns[until - 1])
  }

  /** The event announces the next chunk of the read. */
  predicate IsChunk(t: Turn, own: Key) {
    t.event == PropertyNotify(own, false)
  }

  /** The result of a read that has collected `buffer` by event `i`; None when it times out or a reply is missing. */
  function Collect(turns: seq<Turn>, own: Key, i: nat, buffer: Bytes): Option<Bytes>
    requires i <= |turns|
    decreases |turns| - i
  {
    if i == |turns| then None
    else if !IsChunk(turns[i], own) then Collect(turns, own, i + 1, buffer)
    else match turns[i].value
         case None => None
         case Some(bytes) => if bytes == [] then Some(buffer) else Collect(turns, own, i + 1, buffer + bytes)
  }

  /** The event a read ends at that is not over by event `i`. */
  function EndOf(turns: seq<Turn>, own: Key, i: nat): (n: nat)
    requires i <= |turns|
    ensures i <= n <= |turns|
    decreases |turns| - i
  {
    if i == |turns| then i
    else if IsChunk(turns[i], own) && (turns[i].value == None || turns[i].value == Some([])) then i + 1
    else EndOf(turns, own, i + 1)
  }

  /** How many chunks are read before event `i`. */
  function Chunks(turns: seq<Turn>, own: Key, i: nat): nat
    requires i <= |turns|
  {
    if i == 0 then 0
    else Chunks(turns, own, i - 1) + if IsChunk(turns[i - 1], own) && turns[i - 1].value.Some? then 1 else 0
  }

  // ---------------------------------------------------------------- dispatching is the owner's step

  /** The process is the owner of this state of the protocol, at the moment it handles the event. */
  ghost predicate Faces(c: Client, t: Turn, s: State) {
    s.owner == c.owner && s.owned == c.owned && s.now == t.now
  }

  ghost predicate BecomesOwnerOf(after: Client, s: State) {
    after.owner == s.owner && after.owned == s.owned
  }

  /**
   In whatever state of the protocol the event is heard: a delete or a request for text at the head of the owner's
   queue is handled as by its step, a lost selection as by giving up the owned text, and a new value or input
   changes nothing.
   */
  ghost predicate HandledAsStep(c: Client, t: Turn, after: Client)
    requires WellFormed(c.owner)
  {
    (forall key, rest, s: State
       | t.event == PropertyNotify(key, true) && Faces(c, t, s) && s.queue == [Deleted(key)] + rest ::
       BecomesOwnerOf(after, Apply(s, OwnerStep))) &&
    (forall key, target: TextTarget, rest, s: State
       | t.event == SelectionRequest(key, target) && Faces(c, t, s) && s.queue == [Request(key, target)] + rest ::
       BecomesOwnerOf(after, Apply(s, OwnerStep))) &&
    (forall s: State | t.event == SelectionClear && Faces(c, t, s) ::
       BecomesOwnerOf(after, Apply(s, SetClipboard(None)))) &&
    (t.event == Input || (t.event.PropertyNotify? && !t.event.deleted) ==> after == c)
  }

  lemma DispatchIsStep(c: Client, t: Turn)
    requires WellFormed(c.owner)
    ensures HandledAsStep(c, t, Dispatched(c, t))
  {
    forall key, rest, s: State
      | t.event == PropertyNotify(key, true) && Faces(c, t, s) && s.queue == [Deleted(key)] + rest
      ensures BecomesOwnerOf(Dispatched(c, t), Apply(s, OwnerStep))
    {
      assert s.queue[0] == Deleted(key);
    }
    forall key, target: TextTarget, rest, s: State
      | t.event == SelectionRequest(key, target) && Faces(c, t, s) && s.queue == [Request(key, target)] + rest
      ensures BecomesOwnerOf(Dispatched(c, t), Apply(s, OwnerStep))
    {
      assert s.queue[0] == Request(key, target);
    }
  }

  // ---------------------------------------------------------------- a transfer served in the meantime

  /** How many deletes of a property are heard in the first `n` events. */
  function Deletes(turns: seq<Turn>, key: Key, n: nat): nat
    requires n <= |turns|
  {
    if n == 0 then 0 else Deletes(turns, key, n - 1) + if turns[n - 1].event == PropertyNotify(key, true) then 1 else 0
  }

  /** The event is no request for this property, and no request that finds its transfer out of time. */
  ghost predicate Calm(c: Client, t: Turn, key: Key) {
    t.event.SelectionRequest? ==>
      t.event.key != key &&
      (TransferOf(c.owner, key).Some? ==> t.now <= TransferOf(c.owner, key).value.deadline)
  }

  ghost predicate CalmUpTo(c: Client, turns: seq<Turn>, key: Key, n: nat)
    requires WellFormed(c.owner) && n <= |turns|
  {
    n == 0 || (CalmUpTo(c, turns, key, n - 1) && Calm(DispatchedAll(c, turns, 0, n - 1), turns[n - 1], key))
  }

  /** No second transfer for the property. */
  ghost predicate Sole(o: Owner, key: Key) {
    forall i, j | 0 <= i < j < |o.slots| && o.slots[i].active && o.slots[i].key == key ::
      !(o.slots[j].active && o.slots[j].key == key)
  }

  /** After `k` deletes the transfer has sent this much more of its text, or has ended. */
  ghost predicate SentMore(o: Owner, key: Key, t: Slot, k: nat)
    requires t.sent <= |t.data|
  {
    Sole(o, key) &&
    if k < AllAnswers(|t.data| - t.sent) then
      TransferOf(o, key).Some? && TransferOf(o, key).value.data == t.data &&
      TransferOf(o, key).value.sent == t.sent + SentAfter(|t.data| - t.sent, k)
    else TransferOf(o, key) == None
  }

  lemma LastAnswer(len: nat, k: nat)
    ensures k * INCR_CHUNK >= len <==> k + 1 >= AllAnswers(len)
  {
    assert AllAnswers(len) - 1 == (len + INCR_CHUNK - 1) / INCR_CHUNK;
  }

  lemma AnsweredOnceMore(o: Owner, key: Key, now: real, t: Slot, k: nat)
    requires WellFormed(o) && t.sent <= |t.data| && SentMore(o, key, t, k)
    ensures SentMore(AnswerDelete(o, key, now), key, t, k + 1)
  {
    LastAnswer(|t.data| - t.sent, k);
    if k < AllAnswers(|t.data| - t.sent) {
      var i, after := TransferFrom(o.slots, key, 0).value, AnswerDelete(o, key, now);
      if o.slots[i].sent < |t.data| {
        FirstKept(after.slots, key, 0, i);
      } else {
        assert TransferFrom(after.slots, key, 0).None?;
      }
    }
  }

  /** A step that gives no slot to the property keeps it from having two. */
  lemma StaysSole(o: Owner, after: Owner, key: Key)
    requires Sole(o, key) && |after.slots| == |o.slots|
    requires forall i | 0 <= i < |o.slots| && after.slots[i].active && after.slots[i].key == key ::
               o.slots[i].active && o.slots[i].key == key
    ensures Sole(after, key)
  {
  }

  lemma OthersRequested(o: Owner, owned: Option<Bytes>, other: Key, target: Target, now: real, key: Key)
    requires WellFormed(o) && other != key && (TransferOf(o, key).Some? ==> now <= TransferOf(o, key).value.deadline)
    ensures var after := WriteTarget(o, owned, other, target, now).0;
            TransferOf(after, key) == TransferOf(o, key) && (Sole(o, key) ==> Sole(after, key))
  {
    var after := WriteTarget(o, owned, other, target, now).0;
    if IsText(target) {
      RequestFirst(o, owned, other, target, now, key);
      RetireSlots(o, now);
      if Sole(o, key) {
        StaysSole(o, after, key);
      }
    } else {
      SmallRequest(o, owned, other, target, now);
    }
  }

  lemma OthersAnswered(c: Client, turn: Turn, key: Key, t: Slot, k: nat)
    requires WellFormed(c.owner) && t.sent <= |t.data| && SentMore(c.owner, key, t, k) && Calm(c, turn, key)
    requires turn.event != PropertyNotify(key, true)
    ensures SentMore(Dispatched(c, turn).owner, key, t, k)
  {
    match turn.event
    case PropertyNotify(other, deleted) =>
      if deleted {
        AnswerFirst(c.owner, other, turn.now, key);
        StaysSole(c.owner, AnswerDelete(c.owner, other, turn.now), key);
      }
    case SelectionRequest(other, target) => OthersRequested(c.owner, c.owned, other, target, turn.now, key);
    case SelectionClear =>
    case Input =>
  }

  /**
   However long the read goes on: every delete of a transfer heard meanwhile sends its next chunk, and the last one
   ends it, so after enough of them everything is sent.
   */
  lemma {:induction false} ServedMeanwhile(c: Client, turns: seq<Turn>, key: Key, t: Slot, n: nat)
    requires WellFormed(c.owner) && n <= |turns| && CalmUpTo(c, turns, key, n)
    requires TransferOf(c.owner, key) == Some(t) && t.sent <= |t.data| && Sole(c.owner, key)
    ensures SentMore(DispatchedAll(c, turns, 0, n).owner, key, t, Deletes(turns, key, n))
    decreases n
  {
    if n > 0 {
      ServedMeanwhile(c, turns, key, t, n - 1);
      var before := DispatchedAll(c, turns, 0, n - 1);
      if turns[n - 1].event == PropertyNotify(key, true) {
        AnsweredOnceMore(before.owner, key, turns[n - 1].now, t, Deletes(turns, key, n - 1));
      } else {
        OthersAnswered(before, turns[n - 1], key, t, Deletes(turns, key, n - 1));
      }
    }
  }

  /** Every transfer that was live before is as far as the deletes heard in the first `n` events brought it. */
  ghost predicate AllServed(c: Client, turns: seq<Turn>, n: nat, after: Client)
    requires WellFormed(c.owner) && n <= |turns|
  {
    forall key, t: Slot
      | TransferOf(c.owner, key) == Some(t) && t.sent <= |t.data| && Sole(c.owner, key) && CalmUpTo(c, turns, key, n) ::
      SentMore(after.owner, key, t, Deletes(turns, key, n))
  }

  lemma DispatchingServes(c: Client, turns: seq<Turn>, n: nat)
    requires WellFormed(c.owner) && n <= |turns|
    ensures AllServed(c, turns, n, DispatchedAll(c, turns, 0, n))
  {
    forall key, t: Slot
      | TransferOf(c.owner, key) == Some(t) && t.sent <= |t.data| && Sole(c.owner, key) && CalmUpTo(c, turns, key, n)
      ensures SentMore(DispatchedAll(c, turns, 0, n).owner, key, t, Deletes(turns, key, n))
    {
      ServedMeanwhile(c, turns, key, t, n);
    }
  }

  // ---------------------------------------------------------------- the code

  ghost function Serving(sel: Selections): Client
    reads sel, sel.sends
  {
    Client(sel.State(), sel.owned)
  }

  /** Handles one event outside the read; for the serving side this is the protocol's own step. */
  method Dispatch(sel: Selections, t: Turn)
    requires sel.Valid()
    modifies sel, sel.sends
    ensures sel.Valid() && Serving(sel) == Dispatched(old(Serving(sel)), t)
    ensures HandledAsStep(old(Serving(sel)), t, Serving(sel))
  {
    DispatchIsStep(Serving(sel), t);
    match t.event {
      case PropertyNotify(key, deleted) => var _ := sel.HandlePropertyNotify(key, deleted, t.now);
      case SelectionRequest(key, target) => var _ := sel.Write(key, target, t.now);
      case SelectionClear => sel.owned := None;
      case Input =>
    }
  }

  /** The events up to the next one about a property; the others are dispatched. */
  method WaitForProperty(sel: Selections, turns: seq<Turn>, from: nat) returns (i: nat)
    requires sel.Valid() && from <= |turns|
    modifies sel, sel.sends
    ensures sel.Valid() && from <= i <= |turns| && (i < |turns| ==> turns[i].event.PropertyNotify?)
    ensures forall k | from <= k < i :: !turns[k].event.PropertyNotify?
    ensures Serving(sel) == DispatchedAll(old(Serving(sel)), turns, from, i)
  {
    i := from;
    ghost var was := Serving(sel);
    while i < |turns| && !turns[i].event.PropertyNotify?
      invariant sel.Valid() && from <= i <= |turns|
      invariant forall k | from <= k < i :: !turns[k].event.PropertyNotify?
      invariant Serving(sel) == DispatchedAll(was, turns, from, i)
    {
      Dispatch(sel, turns[i]);
      i := i + 1;
    }
  }

  /** The state of the loop after `i` events. */
  ghost predicate Midway(was: Client, sel: Client, turns: seq<Turn>, own: Key, buffer: Bytes, deletes: nat, i: nat)
    requires WellFormed(was.owner)
  {
    i <= |turns| && sel == DispatchedAll(was, turns, 0, i) && deletes == 1 + Chunks(turns, own, i) &&
    Collect(turns, own, i, buffer) == Collect(turns, own, 0, []) && EndOf(turns, own, i) == EndOf(turns, own, 0)
  }

  /**
   Reads the chunks of an incremental transfer until the empty one. Whatever it returns, every
   request and every delete that came in the meantime has been answered as if the process had
   not been reading.
   */
  method ReadIncr(sel: Selections, own: Key, turns: seq<Turn>) returns (r: Option<Bytes>, deletes: nat)
    requires sel.Valid()
    modifies sel, sel.sends
    ensures sel.Valid() && r == Collect(turns, own, 0, [])
    ensures Serving(sel) == DispatchedAll(old(Serving(sel)), turns, 0, EndOf(turns, own, 0))
    ensures AllServed(old(Serving(sel)), turns, EndOf(turns, own, 0), Serving(sel))
    ensures deletes == 1 + Chunks(turns, own, EndOf(turns, own, 0))
  {
    ghost var was := Serving(sel);
    DispatchingServes(was, turns, EndOf(turns, own, 0));
    var buffer: Bytes := [];
    var i := 0;
    deletes := 1;
    while i < |turns|
      invariant sel.Valid() && Midway(was, Serving(sel), turns, own, buffer, deletes, i)
    {
      ghost var from := i;
      i := WaitForProperty(sel, turns, i);
      Waited(was, turns, own, buffer, from, i);
      if i == |turns| {
        break;
      }
      TurnTaken(was, Serving(sel), turns, own, buffer, deletes, i);
      if !IsChunk(turns[i], own) {
        Dispatch(sel, turns[i]);
      } else {
        if turns[i].value.None? {
          return None, deletes;
        }
        deletes := deletes + 1;
        if turns[i].value.value == [] {
          return Some(buffer), deletes;
        }
        buffer := buffer + turns[i].value.value;
      }
      i := i + 1;
    }
    r := None;
  }

  /** What was dispatched while waiting comes on top of what was dispatched before, and was no part of the read. */
  lemma {:induction false} Waited(c: Client, turns: seq<Turn>, own: Key, buffer: Bytes, from: nat, i: nat)
    requires WellFormed(c.owner) && from <= i <= |turns|
    requires forall k | from <= k < i :: !turns[k].event.PropertyNotify?
    ensures DispatchedAll(DispatchedAll(c, turns, 0, from), turns, from, i) == DispatchedAll(c, turns, 0, i)
    ensures Collect(turns, own, from, buffer) == Collect(turns, own, i, buffer)
    ensures EndOf(turns, own, from) == EndOf(turns, own, i) && Chunks(turns, own, from) == Chunks(turns, own, i)
    decreases i
  {
    if from < i {
      Waited(c, turns, own, buffer, from, i - 1);
    }
  }

  /** What one more event about a property means: it is handed on, ends the read, or adds a chunk. */
  lemma TurnTaken(was: Client, sel: Client, turns: seq<Turn>, own: Key, buffer: Bytes, deletes: nat, i: nat)
    requires WellFormed(was.owner) && Midway(was, sel, turns, own, buffer, deletes, i) && i < |turns|
    ensures var t := turns[i];
            if !IsChunk(t, own) then Midway(was, Dispatched(sel, t), turns, own, buffer, deletes, i + 1)
            else
              sel == DispatchedAll(was, turns, 0, i + 1) &&
              match t.value
              case None =>
                Collect(turns, own, 0, []) == None && EndOf(turns, own, 0) == i + 1 &&
                deletes == 1 + Chunks(turns, own, i + 1)
              case Some(bytes) =>
                if bytes == [] then
                  Collect(turns, own, 0, []) == Some(buffer) && EndOf(turns, own, 0) == i + 1 &&
                  deletes + 1 == 1 + Chunks(turns, own, i + 1)
                else Midway(was, sel, turns, own, buffer + bytes, deletes + 1, i + 1)
  {
  }

  // ---------------------------------------------------------------- what it returns along a run

  /** The step is a chunk of the read. */
  predicate Reads(s: State, a: Action, key: Key) {
    a == ReaderStep(key) && ReaderOf(s, key).phase.Reading? && ReaderOf(s, key).inbox != [] &&
    ReaderOf(s, key).inbox[0] == NewValue
  }

  /** What the requestor's process hears along a run: each chunk as it reads it, and any other events between. */
  ghost predicate Hears(states: seq<State>, actions: seq<Action>, turns: seq<Turn>, key: Key) {
    |turns| == |actions| < |states| &&
    forall i | 0 <= i < |turns| ::
      if Reads(states[i], actions[i], key)
      then IsChunk(turns[i], key) && turns[i].value == Some(ReadBytes(states[i], key))
      else !IsChunk(turns[i], key)
  }

  /** What a step does to a read in progress. */
  lemma ReadingStep(s: State, a: Action, key: Key)
    requires WellFormed(s.owner) && ReaderOf(s, key).phase.Reading?
    ensures var b, next := ReaderOf(s, key).phase.buffer, ReaderOf(Apply(s, a), key).phase;
            if !Reads(s, a, key) then next == Reading(b) || next == Failed
            else next == if ReadBytes(s, key) == [] then Done(b) else Reading(b + ReadBytes(s, key))
  {
  }

  lemma {:induction false} CollectAlong(states: seq<State>, actions: seq<Action>, turns: seq<Turn>, key: Key,
                                        m: nat, n: nat)
    requires IsRun(states, actions) && Hears(states, actions, turns, key) && m < n < |states|
    requires forall k | m <= k < n :: ReaderOf(states[k], key).phase.Reading?
    requires ReaderOf(states[n], key).phase.Done?
    ensures Collect(turns, key, m, ReaderOf(states[m], key).phase.buffer) == Some(ReaderOf(states[n], key).phase.result)
    decreases n - m
  {
    assert RunStep(states, actions, m);
    ReadingStep(states[m], actions[m], key);
    if m + 1 < n {
      CollectAlong(states, actions, turns, key, m + 1, n);
    }
  }

  /** How many chunks the requestor reads, and deletes, in the first `n` steps of a run. */
  ghost function ReadsUpTo(states: seq<State>, actions: seq<Action>, key: Key, n: nat): nat
    requires n <= |actions| <= |states|
  {
    if n == 0 then 0
    else ReadsUpTo(states, actions, key, n - 1) + if Reads(states[n - 1], actions[n - 1], key) then 1 else 0
  }

  /** The loop deletes the property once for the announcement and once for every chunk the requestor reads. */
  lemma {:induction false} ChunksAreReads(states: seq<State>, actions: seq<Action>, turns: seq<Turn>, key: Key, n: nat)
    requires Hears(states, actions, turns, key) && n <= |turns|
    ensures Chunks(turns, key, n) == ReadsUpTo(states, actions, key, n)
    decreases n
  {
    if n > 0 {
      ChunksAreReads(states, actions, turns, key, n - 1);
    }
  }

  /** A read does not look back at what came before it. */
  lemma {:induction false} CollectLater(turns: seq<Turn>, own: Key, m: nat, i: nat, buffer: Bytes)
    requires m <= i <= |turns|
    ensures Collect(turns, own, i, buffer) == Collect(turns[m..], own, i - m, buffer)
    decreases |turns| - i
  {
    if i < |turns| {
      assert turns[m..][i - m] == turns[i];
      CollectLater(turns, own, m, i + 1, buffer);
      if turns[i].value.Some? {
        CollectLater(turns, own, m, i + 1, buffer + turns[i].value.value);
      }
    }
  }

  /**
   Along every run, the loop started after the announcement returns exactly the selection as it
   was when it was requested, if the read comes to its end, whatever other events its process
   hears in between.
   */
  lemma ReadReturnsSnapshot(states: seq<State>, actions: seq<Action>, turns: seq<Turn>, key: Key, m: nat, n: nat)
    requires IsRun(states, actions) && Hears(states, actions, turns, key) && m < n < |states|
    requires ReaderOf(states[m], key).phase == Reading([])
    requires forall k | m <= k < n :: ReaderOf(states[k], key).phase.Reading?
    requires ReaderOf(states[n], key).phase.Done?
    ensures Collect(turns[m..], key, 0, []) == Some(ReaderOf(states[n], key).snapshot)
  {
    CollectLater(turns, key, m, m, []);
    CollectAlong(states, actions, turns, key, m, n);
    DoneIsWhole(states, actions, n, key);
  }
}
