/**
 Serving a selection over X11: the four outgoing INCR transfers, the requests that start
 them and the property deletes that drive them (section 2.7.2 of the ICCCM).
 */
module IncrSends {
  import opened Bits
  import opened Options

  type Window = nat
  type Atom = nat
  type Bytes = seq<byte>

  const NONE: Atom := 0
  const INCR_CHUNK: nat := 65536
  const INCR_SENDS: nat := 4
  const SEND_TIMEOUT: real := 10.0

  /** The property of a requestor a selection is delivered through. */
  datatype Key = Key(window: Window, atom: Atom)

  datatype Target = TARGETS | UTF8_STRING | TEXT_PLAIN_UTF8 | STRING | OTHER

  /** What a property holds: an INCR announcement, a target list, or text. */
  datatype Property = Announce(total: nat) | Offer(targets: seq<Target>) | Text(target: Target, bytes: Bytes)

  /** The server state this client can see or change: properties, and the windows it watches. */
  datatype Server = Server(props: map<Key, Property>, watched: set<Window>)

  datatype Slot = Slot(key: Key, target: Target, data: Bytes, sent: nat, deadline: real, active: bool)

  datatype Owner = Owner(slots: seq<Slot>, server: Server)

  // ---------------------------------------------------------------- specification

  function Ended(s: Slot): Slot {
    s.(data := [], active := false)
  }

  predicate Expired(s: Slot, now: real) {
    s.active && now > s.deadline
  }

  function RetireFrom(o: Owner, now: real, i: nat): (r: Owner)
    requires i <= |o.slots|
    ensures |r.slots| == |o.slots|
    decreases |o.slots| - i
  {
    if i == |o.slots| then o
    else if Expired(o.slots[i], now) then RetireFrom(EndAt(o, i), now, i + 1)
    else RetireFrom(o, now, i + 1)
  }

  function EndAt(o: Owner, i: nat): Owner
    requires i < |o.slots|
  {
    if !o.slots[i].active then o
    else Owner(o.slots[i := Ended(o.slots[i])], o.server.(watched := o.server.watched - {o.slots[i].key.window}))
  }

  function Retire(o: Owner, now: real): (r: Owner)
    ensures |r.slots| == |o.slots|
  {
    RetireFrom(o, now, 0)
  }

  function FreeFrom(slots: seq<Slot>, i: nat): (r: Option<nat>)
    requires i <= |slots|
    ensures r.Some? ==> i <= r.value < |slots| && !slots[r.value].active
    ensures r.None? <==> forall j | i <= j < |slots| :: slots[j].active
    decreases |slots| - i
  {
    if i == |slots| then None else if !slots[i].active then Some(i) else FreeFrom(slots, i + 1)
  }

  /** The first active transfer for a property: the one every delete of it is answered from. */
  function TransferFrom(slots: seq<Slot>, key: Key, i: nat): (r: Option<nat>)
    requires i <= |slots|
    ensures r.Some? ==> i <= r.value < |slots| && slots[r.value].active && slots[r.value].key == key
    ensures r.Some? ==> forall j | i <= j < r.value :: !(slots[j].active && slots[j].key == key)
    ensures r.None? ==> forall j | i <= j < |slots| :: !(slots[j].active && slots[j].key == key)
    decreases |slots| - i
  {
    if i == |slots| then None
    else if slots[i].active && slots[i].key == key then Some(i)
    else TransferFrom(slots, key, i + 1)
  }

  function Chunk(s: Slot): (c: Bytes)
    requires s.sent <= |s.data|
    ensures |c| == Min(|s.data| - s.sent, INCR_CHUNK) && s.data[..s.sent] + c == s.data[..s.sent + |c|]
  {
    s.data[s.sent..s.sent + Min(|s.data| - s.sent, INCR_CHUNK)]
  }

  /** An append to a property of another type is refused by the server and changes nothing. */
  predicate Appends(props: map<Key, Property>, key: Key, target: Target) {
    key !in props || (props[key].Text? && props[key].target == target)
  }

  function Append(props: map<Key, Property>, key: Key, target: Target, bytes: Bytes): map<Key, Property> {
    if key !in props then props[key := Text(target, bytes)]
    else if Appends(props, key, target) then props[key := Text(target, props[key].bytes + bytes)]
    else props
  }

  ghost predicate WellFormed(o: Owner) {
    |o.slots| == INCR_SENDS &&
    forall i | 0 <= i < |o.slots| :: o.slots[i].sent <= |o.slots[i].data| || !o.slots[i].active
  }

  /** The owner after one answered delete from transfer `i`. */
  function AnswerFrom(o: Owner, i: nat, now: real): Owner
    requires i < |o.slots| && o.slots[i].active && o.slots[i].sent <= |o.slots[i].data|
  {
    var s := o.slots[i];
    var c := Chunk(s);
    var props := Append(o.server.props, s.key, s.target, c);
    var answered := Owner(o.slots[i := s.(sent := s.sent + |c|, deadline := now + SEND_TIMEOUT)],
                          o.server.(props := props));
    if c == [] then EndAt(answered, i) else answered
  }

  function AnswerDelete(o: Owner, key: Key, now: real): Owner
    requires WellFormed(o)
  {
    match TransferFrom(o.slots, key, 0)
    case None => o
    case Some(i) => AnswerFrom(o, i, now)
  }

  predicate IsText(target: Target) {
    target == UTF8_STRING || target == TEXT_PLAIN_UTF8 || target == STRING
  }

  function Offered(): seq<Target> {
    [TARGETS, UTF8_STRING, TEXT_PLAIN_UTF8, STRING]
  }

  /** The owner after a new incremental transfer took slot `i`. */
  function Begin(o: Owner, i: nat, key: Key, target: Target, data: Bytes, now: real): Owner
    requires i < |o.slots|
  {
    Owner(o.slots[i := Slot(key, target, data, 0, now + SEND_TIMEOUT, true)],
          Server(o.server.props[key := Announce(|data| % WORD)], o.server.watched + {key.window}))
  }

  /** One target of a request: the new state, and whether it was served. */
  function WriteTarget(o: Owner, owned: Option<Bytes>, key: Key, target: Target, now: real): (Owner, bool) {
    if owned.None? || key.atom == NONE then (o, false)
    else if target == TARGETS then (o.(server := o.server.(props := o.server.props[key := Offer(Offered())])), true)
    else if !IsText(target) then (o, false)
    else if |owned.value| > INCR_CHUNK then
      match FreeFrom(Retire(o, now).slots, 0)
      case None => (Retire(o, now), false)
      case Some(i) => (Begin(Retire(o, now), i, key, target, owned.value, now), true)
    else (o.(server := o.server.(props := o.server.props[key := Text(target, owned.value)])), true)
  }

  // ---------------------------------------------------------------- the code

  class Selections {
    const sends: array<Slot>
    var server: Server
    var owned: Option<Bytes>

    ghost predicate Valid()
      reads this, sends
    {
      WellFormed(State())
    }

    ghost function State(): Owner
      reads this, sends
    {
      Owner(sends[..], server)
    }

    constructor (server: Server)
      ensures Valid() && fresh(sends) && this.server == server && owned == None
      ensures forall i | 0 <= i < sends.Length :: !sends[i].active
    {
      sends := new Slot[INCR_SENDS](_ => Slot(Key(0, NONE), OTHER, [], 0, 0.0, false));
      this.server := server;
      owned := None;
    }

    method End(i: nat)
      requires Valid() && i < sends.Length
      modifies this`server, sends
      ensures Valid() && State() == EndAt(old(State()), i)
    {
      if !sends[i].active {
        return;
      }
      server := server.(watched := server.watched - {sends[i].key.window});
      sends[i] := sends[i].(data := []);
      sends[i] := sends[i].(active := false);
    }

    /** Ends every expired transfer and gives the first idle slot. */
    method FindSlot(now: real) returns (available: Option<nat>)
      requires Valid()
      modifies this`server, sends
      ensures Valid() && State() == Retire(old(State()), now) && available == FreeFrom(State().slots, 0)
    {
      available := None;
      ghost var was := State();
      for i := 0 to sends.Length
        invariant Valid() && RetireFrom(State(), now, i) == Retire(was, now)
        invariant available.None? ==> forall j | 0 <= j < i :: sends[j].active
        invariant available.Some? ==>
                    available.value < i && !sends[available.value].active &&
                    forall j | 0 <= j < available.value :: sends[j].active
      {
        if sends[i].active && now > sends[i].deadline {
          End(i);
        }
        if !sends[i].active && available.None? {
          available := Some(i);
        }
      }
      if available.Some? {
        FirstFree(State().slots, 0, available.value);
      }
    }

    /** Answers one property event; false when it belongs to something else. */
    method HandlePropertyNotify(key: Key, deleted: bool, now: real) returns (handled: bool)
      requires Valid()
      modifies this`server, sends
      ensures Valid() && State() == if deleted then AnswerDelete(old(State()), key, now) else old(State())
      ensures handled <==> deleted && TransferFrom(old(State()).slots, key, 0).Some?
    {
      if !deleted {
        return false;
      }
      ghost var was := State();
      for i := 0 to sends.Length
        invariant Valid() && State() == was
        invariant TransferFrom(was.slots, key, 0) == TransferFrom(was.slots, key, i)
      {
        if !sends[i].active || sends[i].key != key {
          continue;
        }
        var chunk := |sends[i].data| - sends[i].sent;
        if chunk > INCR_CHUNK {
          chunk := INCR_CHUNK;
        }
        server := server.(props := Append(server.props, sends[i].key, sends[i].target,
                                          sends[i].data[sends[i].sent..sends[i].sent + chunk]));
        sends[i] := sends[i].(sent := sends[i].sent + chunk);
        sends[i] := sends[i].(deadline := now + SEND_TIMEOUT);
        if chunk == 0 {
          End(i);
        }
        return true;
      }
      handled := false;
    }

    /** Serves one target of a request; the reply names the property, or is a refusal. */
    method Write(key: Key, target: Target, now: real) returns (property: Atom)
      requires Valid()
      modifies this`server, sends
      ensures Valid() && State() == WriteTarget(old(State()), owned, key, target, now).0
      ensures property == if WriteTarget(old(State()), owned, key, target, now).1 then key.atom else NONE
    {
      if owned.None? || key.atom == NONE {
        return NONE;
      }
      if target == TARGETS {
        server := server.(props := server.props[key := Offer(Offered())]);
        return key.atom;
      }
      if IsText(target) {
        var len := |owned.value|;
        if len > INCR_CHUNK {
          var send := FindSlot(now);
          if send.None? {
            return NONE;
          }
          server := server.(watched := server.watched + {key.window});
          server := server.(props := server.props[key := Announce(len % WORD)]);
          sends[send.value] := Slot(key, target, owned.value, 0, now + SEND_TIMEOUT, true);
          return key.atom;
        }
        server := server.(props := server.props[key := Text(target, owned.value)]);
        return key.atom;
      }
      property := NONE;
    }
  }

  lemma {:induction false} FirstFree(slots: seq<Slot>, i: nat, k: nat)
    requires i <= k < |slots| && !slots[k].active && forall j | i <= j < k :: slots[j].active
    ensures FreeFrom(slots, i) == Some(k)
    decreases k - i
  {
    if i < k {
      FirstFree(slots, i + 1, k);
    }
  }

  // ---------------------------------------------------------------- transfers do not interfere

  lemma {:induction false} RetireAt(o: Owner, now: real, i: nat, j: nat)
    requires i <= |o.slots| && j < |o.slots|
    ensures RetireFrom(o, now, i).slots[j] ==
              if i <= j && Expired(o.slots[j], now) then Ended(o.slots[j]) else o.slots[j]
    ensures RetireFrom(o, now, i).server.props == o.server.props
    ensures RetireFrom(o, now, i).server.watched <= o.server.watched
    decreases |o.slots| - i
  {
    if i < |o.slots| {
      RetireAt(if Expired(o.slots[i], now) then EndAt(o, i) else o, now, i + 1, j);
    }
  }

  /**
   Answering a delete touches no other transfer and no other property; the last answer also
   stops watching the requestor's window.
   */
  lemma AnswerIsLocal(o: Owner, key: Key, now: real, j: nat, other: Key)
    requires WellFormed(o) && j < |o.slots|
    requires o.slots[j].key != key || TransferFrom(o.slots, key, 0) != Some(j)
    requires other != key
    ensures AnswerDelete(o, key, now).slots[j] == o.slots[j]
    ensures other in o.server.props <==> other in AnswerDelete(o, key, now).server.props
    ensures other in o.server.props ==> AnswerDelete(o, key, now).server.props[other] == o.server.props[other]
    ensures AnswerDelete(o, key, now).server.watched ==
              o.server.watched - (if LastAnswer(o, key) then {key.window} else {})
  {
  }

  /** The next delete of the property is answered with the empty chunk that ends its transfer. */
  predicate LastAnswer(o: Owner, key: Key) {
    match TransferFrom(o.slots, key, 0)
    case None => false
    case Some(i) => o.slots[i].sent == |o.slots[i].data|
  }

  /** A request never overwrites or ends a transfer that is live and has not expired. */
  lemma LiveTransferSurvives(o: Owner, owned: Option<Bytes>, key: Key, target: Target, now: real, j: nat)
    requires j < |o.slots| && o.slots[j].active && !Expired(o.slots[j], now)
    ensures j < |WriteTarget(o, owned, key, target, now).0.slots|
    ensures WriteTarget(o, owned, key, target, now).0.slots[j] == o.slots[j]
  {
    RetireAt(o, now, 0, j);
  }

  /** Exactly which requests are served; for want of a slot only when all four are live and unexpired. */
  lemma ServedIff(o: Owner, owned: Option<Bytes>, key: Key, target: Target, now: real)
    requires WellFormed(o)
    ensures WriteTarget(o, owned, key, target, now).1 <==>
              owned.Some? && key.atom != NONE &&
              (target == TARGETS ||
               (IsText(target) &&
                (|owned.value| > INCR_CHUNK ==>
                   exists j | 0 <= j < INCR_SENDS :: !o.slots[j].active || Expired(o.slots[j], now))))
  {
    forall j | 0 <= j < INCR_SENDS
      ensures Retire(o, now).slots[j].active <==> o.slots[j].active && !Expired(o.slots[j], now)
    {
      RetireAt(o, now, 0, j);
    }
  }

  /** An answered delete sends the next chunk, or ends the transfer when everything is sent. */
  lemma AnswerProgress(o: Owner, key: Key, now: real, i: nat)
    requires WellFormed(o) && TransferFrom(o.slots, key, 0) == Some(i)
    ensures var s, t := o.slots[i], AnswerDelete(o, key, now).slots[i];
            if s.sent == |s.data| then !t.active
            else
              t.active && t.data == s.data && |t.data| - t.sent < |s.data| - s.sent &&
              t.deadline == now + SEND_TIMEOUT
  {
  }

  /**
   What the requestor finds after an answered delete: at most 65536 bytes more of the text, appended to what is
   there, unless that is of another type; and the transfer has ten more seconds.
   */
  lemma AnswerPosts(o: Owner, key: Key, now: real, i: nat)
    requires WellFormed(o) && TransferFrom(o.slots, key, 0) == Some(i)
    ensures var s, after := o.slots[i], AnswerDelete(o, key, now);
            var n := if |s.data| - s.sent < 65536 then |s.data| - s.sent else 65536;
            var p := if key in o.server.props then Some(o.server.props[key]) else None;
            after.slots[i].deadline == now + 10.0 && after.slots[i].sent == s.sent + n &&
            (p == None ==> after.server.props == o.server.props[key := Text(s.target, s.data[s.sent..s.sent + n])]) &&
            (p.Some? && p.value.Text? && p.value.target == s.target ==>
               after.server.props ==
                 o.server.props[key := Text(s.target, p.value.bytes + s.data[s.sent..s.sent + n])]) &&
            (p.Some? && !(p.value.Text? && p.value.target == s.target) ==> after.server.props == o.server.props)
  {
  }

  /** A retired transfer of the window from slot `i` on. */
  ghost predicate Retires(slots: seq<Slot>, now: real, i: nat, w: Window) {
    exists j | i <= j < |slots| :: Expired(slots[j], now) && slots[j].key.window == w
  }

  /** The windows of retired transfers, and no others, are not watched any more. */
  lemma {:induction false} RetireWatches(o: Owner, now: real, i: nat, w: Window)
    requires i <= |o.slots|
    ensures w in RetireFrom(o, now, i).server.watched <==> w in o.server.watched && !Retires(o.slots, now, i, w)
    decreases |o.slots| - i
  {
    if i < |o.slots| {
      var n := if Expired(o.slots[i], now) then EndAt(o, i) else o;
      RetireWatches(n, now, i + 1, w);
      assert forall j | i < j < |o.slots| :: n.slots[j] == o.slots[j];
    }
  }

  /** Idle, or out of time. */
  predicate Available(s: Slot, now: real) {
    !s.active || now > s.deadline
  }

  /**
   A large selection goes to the first slot that is idle or out of time, is announced with its size as a 32-bit
   number, and the requestor's window is watched; every other slot is ended if it is out of time and kept if not.
   */
  lemma LargeRequest(o: Owner, owned: Option<Bytes>, key: Key, target: Target, now: real, i: nat)
    requires WellFormed(o) && owned.Some? && |owned.value| > 65536 && key.atom != 0
    requires target == UTF8_STRING || target == TEXT_PLAIN_UTF8 || target == STRING
    requires i < |o.slots| && Available(o.slots[i], now) && forall j | 0 <= j < i :: !Available(o.slots[j], now)
    ensures var (after, ok) := WriteTarget(o, owned, key, target, now);
            ok && |after.slots| == |o.slots| &&
            after.slots[i] == Slot(key, target, owned.value, 0, now + 10.0, true) &&
            (forall j | 0 <= j < |o.slots| && j != i ::
               if o.slots[j].active && now > o.slots[j].deadline
               then !after.slots[j].active && after.slots[j].data == [] else after.slots[j] == o.slots[j]) &&
            after.server.props == o.server.props[key := Announce(|owned.value| % 0x1_0000_0000)] &&
            forall w :: w in after.server.watched <==>
              w == key.window || (w in o.server.watched && !Retires(o.slots, now, 0, w))
  {
    var r := Retire(o, now);
    forall w ensures w in r.server.watched <==> w in o.server.watched && !Retires(o.slots, now, 0, w) {
      RetireWatches(o, now, 0, w);
    }
    forall j | 0 <= j < |o.slots|
      ensures r.slots[j] == if Expired(o.slots[j], now) then Ended(o.slots[j]) else o.slots[j]
    {
      RetireAt(o, now, 0, j);
    }
    RetireAt(o, now, 0, i);
    FirstFree(r.slots, 0, i);
  }

  /** Without such a slot a large selection is refused, and nothing changes. */
  lemma NoSlotLeft(o: Owner, owned: Option<Bytes>, key: Key, target: Target, now: real)
    requires WellFormed(o) && owned.Some? && |owned.value| > 65536 && IsText(target)
    requires forall j | 0 <= j < |o.slots| :: !Available(o.slots[j], now)
    ensures WriteTarget(o, owned, key, target, now) == (o, false)
  {
    NothingExpired(o, now, 0);
  }

  lemma {:induction false} NothingExpired(o: Owner, now: real, i: nat)
    requires i <= |o.slots| && forall j | 0 <= j < |o.slots| :: !Available(o.slots[j], now)
    ensures RetireFrom(o, now, i) == o
    decreases |o.slots| - i
  {
    if i < |o.slots| {
      NothingExpired(o, now, i + 1);
    }
  }

  /** Every other request leaves the transfers alone: the target list, the text itself, or a refusal. */
  lemma SmallRequest(o: Owner, owned: Option<Bytes>, key: Key, target: Target, now: real)
    requires owned.None? || key.atom == 0 || |owned.value| <= 65536 || target == TARGETS || target == OTHER
    ensures var (after, ok) := WriteTarget(o, owned, key, target, now);
            after.slots == o.slots && after.server.watched == o.server.watched &&
            if owned.None? || key.atom == 0 || target == OTHER then after == o && !ok
            else if target == TARGETS then
              ok && after.server.props == o.server.props[key := Offer([TARGETS, UTF8_STRING, TEXT_PLAIN_UTF8, STRING])]
            else ok && after.server.props == o.server.props[key := Text(target, owned.value)]
  {
  }

  /**
   When two active transfers share a property, every delete of it is answered from the
   earlier slot: the later transfer neither sends nor ends.
   */
  lemma SharedKeyStarvesLater(o: Owner, key: Key, now: real, i: nat, j: nat)
    requires WellFormed(o) && i < j < |o.slots|
    requires o.slots[i].active && o.slots[i].key == key && o.slots[j].active && o.slots[j].key == key
    ensures AnswerDelete(o, key, now).slots[j] == o.slots[j]
  {
  }
}
