/** When a transfer completes: who is told of a delete, and that fair turns are enough. */
module IncrProgress {
  import opened Options
  import opened IncrSends
  import opened IncrProtocol
  import opened IncrFeeding
  import opened IncrRuns

  // ---------------------------------------------------------------- which windows are watched

  lemma {:induction false} RetireWatched(o: Owner, now: real, i: nat, w: Window)
    requires i <= |o.slots|
    ensures w in RetireFrom(o, now, i).server.watched <==>
              w in o.server.watched &&
              forall k | i <= k < |o.slots| :: !(Expired(o.slots[k], now) && o.slots[k].key.window == w)
    decreases |o.slots| - i
  {
    if i < |o.slots| {
      var n := if Expired(o.slots[i], now) then EndAt(o, i) else o;
      RetireWatched(n, now, i + 1, w);
      assert forall k | i < k < |o.slots| :: n.slots[k] == o.slots[k];
    }
  }

  /** The step begins a transfer to the window. */
  predicate BeginsOn(s: State, a: Action, w: Window) {
    a.OwnerStep? && Begins(s) && s.queue[0].key.window == w
  }

  /** The step ends a transfer to the window: with the empty chunk, or because it has expired. */
  ghost predicate EndsOn(s: State, a: Action, w: Window) {
    a.OwnerStep? && s.queue != [] &&
    if s.queue[0].Deleted? then s.queue[0].key.window == w && LastAnswer(s.owner, s.queue[0].key)
    else
      NeedsSlot(s) &&
      exists k :: 0 <= k < |s.owner.slots| && Expired(s.owner.slots[k], s.now) && s.owner.slots[k].key.window == w
  }

  /** A step watches a window by beginning a transfer to it, and stops watching it only by ending one. */
  lemma WatchStep(s: State, a: Action, w: Window)
    requires WellFormed(s.owner)
    ensures w in Apply(s, a).owner.server.watched <==>
              BeginsOn(s, a, w) || (w in s.owner.server.watched && !EndsOn(s, a, w))
  {
    if a.OwnerStep? && s.queue != [] {
      if s.queue[0].Request? {
        RetireWatched(s.owner, s.now, 0, w);
      }
    }
  }

  /**
   While no new transfer begins to a watched window, its deletes are reported if and only if
   no transfer to it has ended.
   */
  lemma {:induction false} ReportedUntilEnd(states: seq<State>, actions: seq<Action>, m: nat, n: nat, key: Key)
    requires Unruly(states, actions) && m <= n < |states| && key.window in states[m].owner.server.watched
    requires forall k | m <= k < n :: !BeginsOn(states[k], actions[k], key.window)
    requires key in states[n].owner.server.props
    ensures DeleteProperty(states[n], key).queue == states[n].queue + [Deleted(key)] <==>
              forall k | m <= k < n :: !EndsOn(states[k], actions[k], key.window)
  {
    WatchedUntilEnd(states, actions, m, n, key.window);
  }

  lemma {:induction false} WatchedUntilEnd(states: seq<State>, actions: seq<Action>, m: nat, n: nat, w: Window)
    requires Unruly(states, actions) && m <= n < |states| && w in states[m].owner.server.watched
    requires forall k | m <= k < n :: !BeginsOn(states[k], actions[k], w)
    ensures w in states[n].owner.server.watched <==> forall k | m <= k < n :: !EndsOn(states[k], actions[k], w)
    decreases n
  {
    if m < n {
      WatchedUntilEnd(states, actions, m, n - 1, w);
      assert Happens(states, actions, n - 1);
      WatchStep(states[n - 1], actions[n - 1], w);
    }
  }

  // ---------------------------------------------------------------- one transfer for each window

  ghost predicate OnePerWindow(o: Owner) {
    forall i, j | 0 <= i < j < |o.slots| && o.slots[i].active && o.slots[j].active ::
      o.slots[i].key.window != o.slots[j].key.window
  }

  ghost predicate AllWatched(o: Owner) {
    forall i | 0 <= i < |o.slots| && o.slots[i].active :: o.slots[i].key.window in o.server.watched
  }

  /** A transfer begins only for a window that no live, unexpired transfer goes to. */
  ghost predicate Solely(s: State) {
    Begins(s) ==>
      var r := Retire(s.owner, s.now);
      forall i | 0 <= i < |r.slots| && r.slots[i].active :: r.slots[i].key.window != s.queue[0].key.window
  }

  lemma RetireGuarded(o: Owner, now: real)
    requires WellFormed(o) && OnePerWindow(o) && AllWatched(o)
    ensures OnePerWindow(Retire(o, now)) && AllWatched(Retire(o, now))
  {
    var r := Retire(o, now);
    RetireSlots(o, now);
    forall i | 0 <= i < |r.slots| && r.slots[i].active
      ensures r.slots[i].key.window in r.server.watched
    {
      RetireWatched(o, now, 0, r.slots[i].key.window);
    }
  }

  lemma AnswerGuarded(o: Owner, key: Key, now: real)
    requires WellFormed(o) && OnePerWindow(o) && AllWatched(o)
    ensures OnePerWindow(AnswerDelete(o, key, now)) && AllWatched(AnswerDelete(o, key, now))
  {
  }

  /** Every transfer's window stays watched, and no two go to the same window. */
  lemma GuardedStep(s: State, a: Action)
    requires WellFormed(s.owner) && OnePerWindow(s.owner) && AllWatched(s.owner) && (a.OwnerStep? ==> Solely(s))
    ensures OnePerWindow(Apply(s, a).owner) && AllWatched(Apply(s, a).owner)
  {
    if a.OwnerStep? && s.queue != [] {
      match s.queue[0] {
        case Deleted(key) => AnswerGuarded(s.owner, key, s.now);
        case Request(_, _) => RetireGuarded(s.owner, s.now);
      }
    }
  }

  /** One transfer for each window is more than one for each property. */
  lemma SolelyIsDistinctly(s: State)
    requires Solely(s)
    ensures Distinctly(s)
  {
  }

  // ---------------------------------------------------------------- asked for means reported

  /** A requestor that has asked for the next chunk of a live transfer has been heard. */
  ghost predicate Heard(v: View, key: Key) {
    v.reader.phase.Reading? && Asking(v, key) && v.transfer.Some? ==> v.pending == [Deleted(key)]
  }

  /** The invariant of runs with one transfer for each window. */
  ghost predicate SoleInv(s: State) {
    Inv(s) && OnePerWindow(s.owner) && AllWatched(s.owner) && forall key :: Heard(ViewOf(s, key), key)
  }

  lemma SoleInit(s: State)
    requires Init(s)
    ensures SoleInv(s)
  {
    InitHolds(s);
    forall key ensures Heard(ViewOf(s, key), key) {
      assert HoldsFor(s, key);
    }
  }

  /** A requestor that deletes its property while its transfer is live is heard. */
  lemma ReadIsHeard(s: State, key: Key)
    requires WellFormed(s.owner) && HoldsFor(s, key) && Heard(ViewOf(s, key), key)
    requires TransferOf(s.owner, key).Some? ==> key.window in s.owner.server.watched
    ensures Heard(ViewOf(ReaderHandles(s, key), key), key)
  {
    DeleteView(s, key, key);
  }

  lemma OwnStepHeard(s: State, a: Action, key: Key)
    requires Inv(s) && Heard(ViewOf(s, key), key) && Allowed(s, a) && Concerns(s, a, key)
    requires TransferOf(s.owner, key).Some? ==> key.window in s.owner.server.watched
    ensures Heard(ViewOf(Apply(s, a), key), key)
  {
    assert HoldsFor(s, key);
    match a
    case Start(_, _) =>
    case OwnerStep =>
      assert Pending(s.queue, key)[0] == s.queue[0];
      if s.queue[0].Deleted? && TransferOf(s.owner, key).Some? {
        AnswerView(s.(queue := s.queue[1..]), key);
      }
    case ReaderStep(_) => ReadIsHeard(s, key);
    case Timeout(_) =>
  }

  /** What a step may do where a transfer begins only when no other goes to the same window. */
  ghost predicate AllowedSolely(s: State, a: Action) {
    Patient(s, a) && (a.OwnerStep? ==> Solely(s))
  }

  lemma SoleStep(s: State, a: Action)
    requires SoleInv(s) && AllowedSolely(s, a)
    ensures SoleInv(Apply(s, a))
  {
    if a.OwnerStep? {
      SolelyIsDistinctly(s);
    }
    StepPreserves(s, a);
    GuardedStep(s, a);
    forall key ensures Heard(ViewOf(Apply(s, a), key), key) {
      assert Heard(ViewOf(s, key), key);
      if Concerns(s, a, key) {
        OwnStepHeard(s, a, key);
      } else {
        OthersApart(s, a, key);
      }
    }
  }

  /** A run in which a transfer begins only when no other goes to the same window. */
  ghost predicate IsSoleRun(states: seq<State>, actions: seq<Action>) {
    Unruly(states, actions) && forall i | 0 <= i < |actions| :: AllowedSolely(states[i], actions[i])
  }

  lemma {:induction false} SoleRunKeepsInv(states: seq<State>, actions: seq<Action>, n: nat)
    requires IsSoleRun(states, actions) && n < |states|
    ensures SoleInv(states[n])
  {
    if n == 0 {
      SoleInit(states[0]);
    } else {
      SoleRunKeepsInv(states, actions, n - 1);
      assert Happens(states, actions, n - 1);
      SoleStep(states[n - 1], actions[n - 1]);
    }
  }

  /** In such a run the owner watches the window of every live transfer. */
  lemma TransfersAreWatched(states: seq<State>, actions: seq<Action>, n: nat, key: Key)
    requires IsSoleRun(states, actions) && n < |states| && TransferOf(states[n].owner, key).Some?
    ensures key.window in states[n].owner.server.watched
  {
    SoleRunKeepsInv(states, actions, n);
  }

  // ---------------------------------------------------------------- what is left to do

  /** The answers a fed requestor still needs. */
  function AnswersLeft(r: Reader, due: Bytes): int {
    AllAnswers(|due|) - r.answers
  }

  /** What the requestor has still to read before its next delete, or before it is done. */
  function Unread(r: Reader): nat {
    |r.inbox| + if r.phase.Waiting? then 1 else 0
  }

  /** How many events come before the first of the conversation. */
  function Ahead(queue: seq<OwnerEvent>, key: Key): nat {
    if queue == [] || queue[0].key == key then 0 else 1 + Ahead(queue[1..], key)
  }

  function QueueAhead(s: State, key: Key): nat {
    if Unread(ReaderOf(s, key)) == 0 && ReaderOf(s, key).phase.Reading? then Ahead(s.queue, key) else 0
  }

  /** It is the owner's turn when the requestor has read everything, and the requestor's otherwise. */
  predicate OwnersTurn(s: State, key: Key) {
    Unread(ReaderOf(s, key)) == 0
  }

  predicate IsTurn(s: State, a: Action, key: Key) {
    if OwnersTurn(s, key) then a == OwnerStep else a == ReaderStep(key)
  }

  /** A fed requestor that has been heard. */
  ghost predicate Fed(s: State, key: Key, due: Bytes) {
    WellFormed(s.owner) && Feeding(ViewOf(s, key), key, due) && Heard(ViewOf(s, key), key)
  }

  lemma FedLeft(s: State, key: Key, due: Bytes)
    requires Fed(s, key, due)
    ensures AnswersLeft(ReaderOf(s, key), due) >= 0
    ensures OwnersTurn(s, key) && !ReaderOf(s, key).phase.Done? ==> AnswersLeft(ReaderOf(s, key), due) >= 1
  {
    if ReaderOf(s, key).answers != AllAnswers(|due|) {
      ChunkArithmetic(|due|, ReaderOf(s, key).answers);
    }
  }

  lemma {:induction false} AheadAppend(queue: seq<OwnerEvent>, more: seq<OwnerEvent>, key: Key)
    requires Pending(queue, key) != []
    ensures Ahead(queue + more, key) == Ahead(queue, key)
  {
    assert (queue + more)[0] == queue[0];
    if queue[0].key != key {
      assert (queue + more)[1..] == queue[1..] + more;
      AheadAppend(queue[1..], more, key);
    }
  }

  /** The steps of others come in behind: they never put anything ahead of the conversation. */
  lemma OthersBehind(s: State, a: Action, key: Key)
    requires WellFormed(s.owner) && !Concerns(s, a, key) && Pending(s.queue, key) != []
    ensures Ahead(Apply(s, a).queue, key) == Ahead(s.queue, key) - if a.OwnerStep? then 1 else 0
  {
    match a
    case Start(other, target) =>
      var d := DeleteProperty(s, other);
      AheadAppend(s.queue, [Deleted(other)], key);
      DeleteView(s, other, key);
      AheadAppend(d.queue, [Request(other, target)], key);
      assert s.queue + [] == s.queue;
    case ReaderStep(other) =>
      ReaderForm(s, other);
      AheadAppend(s.queue, [Deleted(other)], key);
      assert s.queue + [] == s.queue;
    case _ =>
  }

  /** The measure of a fed requestor never grows ... */
  ghost predicate NoMore(s: State, t: State, key: Key, due: Bytes) {
    var a, b := ReaderOf(s, key), ReaderOf(t, key);
    AnswersLeft(b, due) <= AnswersLeft(a, due) &&
    (AnswersLeft(b, due) == AnswersLeft(a, due) ==>
       Unread(b) <= Unread(a) && (Unread(b) == Unread(a) ==> QueueAhead(t, key) <= QueueAhead(s, key)))
  }

  /** ... and shrinks with every turn. */
  ghost predicate Less(s: State, t: State, key: Key, due: Bytes) {
    var a, b := ReaderOf(s, key), ReaderOf(t, key);
    AnswersLeft(b, due) < AnswersLeft(a, due) ||
    (AnswersLeft(b, due) == AnswersLeft(a, due) &&
     (Unread(b) < Unread(a) || (Unread(b) == Unread(a) && QueueAhead(t, key) < QueueAhead(s, key))))
  }

  /** As long as the requestor needs an answer from a transfer, the owner watches its window. */
  ghost predicate Watched(s: State, key: Key) {
    Awaits(ViewOf(s, key)) && TransferOf(s.owner, key).Some? ==> key.window in s.owner.server.watched
  }

  lemma ReadHeard(s: State, key: Key, due: Bytes)
    requires Fed(s, key, due) && Watched(s, key)
    ensures Heard(ViewOf(ReaderHandles(s, key), key), key)
  {
    DeleteView(s, key, key);
  }

  lemma FedStep(s: State, a: Action, key: Key, due: Bytes)
    requires Fed(s, key, due) && Undisturbed(s, a, key) && Watched(s, key)
    ensures Fed(Apply(s, a), key, due)
  {
    StepKeepsForm(s, a);
    FeedingStep(s, a, key, due);
    if !Concerns(s, a, key) {
      if Awaits(ViewOf(s, key)) {
        OthersUnseen(s, a, key);
      } else {
        OthersElsewhere(s, a, key);
        FedAnyway(ViewOf(s, key), ViewOf(Apply(s, a), key), key, due);
      }
    } else if a.OwnerStep? {
      assert Pending(s.queue, key)[0] == s.queue[0];
      AnswerFeeds(s, key, due);
    } else if a.ReaderStep? {
      ReadHeard(s, key, due);
    }
  }

  /** One answered delete is one answer less; the rest of the measure is the requestor's reading and the queue. */
  lemma MeasureStep(s: State, a: Action, key: Key, due: Bytes)
    requires Fed(s, key, due) && !ReaderOf(s, key).phase.Done? && Undisturbed(s, a, key)
    ensures NoMore(s, Apply(s, a), key, due)
    ensures IsTurn(s, a, key) ==> Less(s, Apply(s, a), key, due)
    ensures a == OwnerStep && s.queue != [] && s.queue[0] == Deleted(key) ==>
              AnswersLeft(ReaderOf(Apply(s, a), key), due) == AnswersLeft(ReaderOf(s, key), due) - 1
  {
    if !Concerns(s, a, key) {
      OthersElsewhere(s, a, key);
      assert ViewOf(Apply(s, a), key).(transfer := None).reader == ViewOf(s, key).(transfer := None).reader;
      if OwnersTurn(s, key) {
        assert Pending(s.queue, key) == [Deleted(key)];
        OthersBehind(s, a, key);
      }
    } else if a.OwnerStep? {
      assert Pending(s.queue, key)[0] == s.queue[0];
      AnswerFeeds(s, key, due);
    } else if a.ReaderStep? {
      ReadLess(s, key, due);
    }
  }

  lemma ReadLess(s: State, key: Key, due: Bytes)
    requires Fed(s, key, due) && !ReaderOf(s, key).phase.Done?
    ensures var r, t := ReaderOf(s, key), ReaderOf(ReaderHandles(s, key), key);
            t.answers == r.answers && if r.inbox == [] then ReaderHandles(s, key) == s else Unread(t) < Unread(r)
  {
  }

  // ---------------------------------------------------------------- fair schedules

  /** One step of an endless run that leaves the requestor to its read, and keeps its window watched while needed. */
  ghost predicate RunsOn(run: nat -> State, act: nat -> Action, key: Key, n: nat) {
    WellFormed(run(n).owner) && run(n + 1) == Apply(run(n), act(n)) && Watched(run(n), key) &&
    (Busy(ReaderOf(run(n), key)) ==> Undisturbed(run(n), act(n), key))
  }

  /** From time n on the owner has another turn, and so has the requestor. */
  ghost predicate TurnsAfter(act: nat -> Action, key: Key, n: nat) {
    (exists k: nat :: k >= n && act(k) == OwnerStep) && (exists k: nat :: k >= n && act(k) == ReaderStep(key))
  }

  ghost predicate Fair(run: nat -> State, act: nat -> Action, key: Key) {
    (forall n: nat :: RunsOn(run, act, key, n)) && (forall n: nat :: TurnsAfter(act, key, n))
  }

  lemma NextTurn(run: nat -> State, act: nat -> Action, key: Key, n: nat) returns (k: nat)
    requires Fair(run, act, key)
    ensures k >= n && IsTurn(run(n), act(k), key)
  {
    assert TurnsAfter(act, key, n);
    if OwnersTurn(run(n), key) {
      k :| k >= n && act(k) == OwnerStep;
    } else {
      k :| k >= n && act(k) == ReaderStep(key);
    }
  }

  /** What is left to do at time n, with the owner's or the requestor's turn at time k. */
  datatype Work = Work(answers: nat, unread: nat, ahead: nat, wait: nat)

  function WorkAt(run: nat -> State, key: Key, due: Bytes, n: nat, k: nat): Work
    requires k >= n && AnswersLeft(ReaderOf(run(n), key), due) >= 0
  {
    var r := ReaderOf(run(n), key);
    Work(AnswersLeft(r, due), Unread(r), QueueAhead(run(n), key), k - n)
  }

  predicate LessWork(v: Work, w: Work) {
    v.answers < w.answers ||
    (v.answers == w.answers &&
     (v.unread < w.unread ||
      (v.unread == w.unread && (v.ahead < w.ahead || (v.ahead == w.ahead && v.wait < w.wait)))))
  }

  ghost predicate Left(run: nat -> State, act: nat -> Action, key: Key, due: Bytes, n: nat, k: nat, w: Work) {
    Fed(run(n), key, due) && k >= n && IsTurn(run(n), act(k), key) &&
    AnswersLeft(ReaderOf(run(n), key), due) >= 0 && w == WorkAt(run, key, due, n, k)
  }

  /** A fed requestor stays fed, and a step that is no progress leaves the turn where it was. */
  lemma StillFed(run: nat -> State, act: nat -> Action, key: Key, due: Bytes, n: nat, k: nat)
    requires RunsOn(run, act, key, n) && Fed(run(n), key, due) && !ReaderOf(run(n), key).phase.Done?
    requires k >= n && IsTurn(run(n), act(k), key)
    ensures Fed(run(n + 1), key, due) && AnswersLeft(ReaderOf(run(n + 1), key), due) >= 0
    ensures NoMore(run(n), run(n + 1), key, due)
    ensures Less(run(n), run(n + 1), key, due) || (k > n && IsTurn(run(n + 1), act(k), key))
  {
    FedStep(run(n), act(n), key, due);
    FedLeft(run(n + 1), key, due);
    MeasureStep(run(n), act(n), key, due);
  }

  /** One step of such a run: the read is over, or there is less left to do. */
  lemma FairStep(run: nat -> State, act: nat -> Action, key: Key, due: Bytes, n: nat, k: nat, w: Work)
    returns (next: nat, v: Work)
    requires Fair(run, act, key) && Left(run, act, key, due, n, k, w) && !ReaderOf(run(n), key).phase.Done?
    ensures Left(run, act, key, due, n + 1, next, v) && LessWork(v, w)
  {
    assert RunsOn(run, act, key, n);
    StillFed(run, act, key, due, n, k);
    if Less(run(n), run(n + 1), key, due) {
      next := NextTurn(run, act, key, n + 1);
    } else {
      next := k;
    }
    v := WorkAt(run, key, due, n + 1, next);
  }

  lemma {:induction false} WorkFinishes(run: nat -> State, act: nat -> Action, key: Key, due: Bytes,
                                        n: nat, k: nat, w: Work) returns (m: nat)
    requires Fair(run, act, key) && Left(run, act, key, due, n, k, w)
    ensures m >= n && ReaderOf(run(m), key).phase == Done(due)
    decreases w.answers, w.unread, w.ahead, w.wait
  {
    if ReaderOf(run(n), key).phase.Done? {
      return n;
    }
    var next, v := FairStep(run, act, key, due, n, k, w);
    m := WorkFinishes(run, act, key, due, n + 1, next, v);
  }

  /**
   Whatever all others do, if owner and requestor keep getting their turns and, as long as the
   requestor needs an answer, its window stays watched and the transfer is not retired, the read
   finishes with exactly the bytes due.
   */
  lemma FairReadFinishes(run: nat -> State, act: nat -> Action, key: Key, due: Bytes, n: nat) returns (m: nat)
    requires Fair(run, act, key) && Fed(run(n), key, due)
    ensures m >= n && ReaderOf(run(m), key).phase == Done(due)
  {
    FedLeft(run(n), key, due);
    var k := NextTurn(run, act, key, n);
    m := WorkFinishes(run, act, key, due, n, k, WorkAt(run, key, due, n, k));
  }

  /** The steps of an endless run with one transfer for each window, seen from one requestor. */
  ghost predicate SolelyOn(run: nat -> State, act: nat -> Action, key: Key, n: nat) {
    WellFormed(run(n).owner) && run(n + 1) == Apply(run(n), act(n)) && AllowedSolely(run(n), act(n)) &&
    (Busy(ReaderOf(run(n), key)) ==> Undisturbed(run(n), act(n), key))
  }

  lemma {:induction false} SoleScheduleInv(run: nat -> State, act: nat -> Action, key: Key, n: nat)
    requires SoleInv(run(0)) && forall i: nat :: SolelyOn(run, act, key, i)
    ensures SoleInv(run(n))
  {
    if n > 0 {
      var s, a := run(n - 1), act(n - 1);
      SoleScheduleInv(run, act, key, n - 1);
      assert SolelyOn(run, act, key, n - 1);
      SoleStep(s, a);
    }
  }

  /**
   With one transfer for each window nothing more is needed: from any reachable state in which
   a live transfer feeds a requestor, every fair schedule brings it the whole selection, unless
   the transfer expires or the requestor gives up.
   */
  lemma FairTransferCompletes(run: nat -> State, act: nat -> Action, key: Key) returns (m: nat)
    requires SoleInv(run(0)) && Busy(ReaderOf(run(0), key))
    requires Feeding(ViewOf(run(0), key), key, ReaderOf(run(0), key).snapshot)
    requires forall n: nat :: SolelyOn(run, act, key, n)
    requires forall n: nat :: TurnsAfter(act, key, n)
    ensures ReaderOf(run(m), key).phase == Done(ReaderOf(run(0), key).snapshot)
  {
    forall n: nat ensures RunsOn(run, act, key, n) {
      SoleScheduleInv(run, act, key, n);
      assert SolelyOn(run, act, key, n);
    }
    assert Heard(ViewOf(run(0), key), key);
    m := FairReadFinishes(run, act, key, ReaderOf(run(0), key).snapshot, 0);
  }
}
