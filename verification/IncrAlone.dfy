/** Owner and requestor taking turns with nobody else about: a schedule that is fair, rivals or not. */
module IncrAlone {
  import opened IncrSends
  import opened IncrProtocol
  import opened IncrFeeding
  import opened IncrProgress
  import opened IncrRestart

  // ---------------------------------------------------------------- taking turns

  function TurnAt(key: Key, n: nat): Action {
    if n % 2 == 0 then OwnerStep else ReaderStep(key)
  }

  /** After `n` turns, the owner's first. */
  ghost function Turns(s: State, key: Key, n: nat): (t: State)
    requires WellFormed(s.owner)
    ensures WellFormed(t.owner)
  {
    if n == 0 then s
    else
      var before := Turns(s, key, n - 1);
      StepKeepsForm(before, TurnAt(key, n - 1));
      Apply(before, TurnAt(key, n - 1))
  }

  /** A requestor is being fed, and all that is queued for the owner are its deletes. */
  ghost predicate Alone(s: State, key: Key, due: Bytes) {
    Fed(s, key, due) && Watched(s, key) && forall i | 0 <= i < |s.queue| :: s.queue[i] == Deleted(key)
  }

  /** The answer that ends a transfer and its watch is the empty chunk, after which no answer is needed. */
  lemma AnsweredAlone(s: State, key: Key, due: Bytes)
    requires Alone(s, key, due)
    ensures Watched(OwnerHandles(s), key)
  {
    if s.queue != [] && Awaits(ViewOf(s, key)) {
      var rest := s.(queue := s.queue[1..]);
      assert Pending(s.queue, key)[0] == s.queue[0];
      AnswerFeeds(s, key, due);
      AnswerView(rest, key);
      WatchStep(s, OwnerStep, key.window);
    } else if s.queue != [] {
      AnsweredAnyway(s, key, due);
    }
  }

  /** A delete that is left over from a finished read starts nothing. */
  lemma AnsweredAnyway(s: State, key: Key, due: Bytes)
    requires Fed(s, key, due) && !Awaits(ViewOf(s, key)) && s.queue != [] && s.queue[0] == Deleted(key)
    ensures !Awaits(ViewOf(OwnerHandles(s), key))
  {
    assert Pending(s.queue, key)[0] == s.queue[0];
  }

  lemma ReadAlone(s: State, key: Key, due: Bytes)
    requires Alone(s, key, due)
    ensures Watched(ReaderHandles(s, key), key)
    ensures forall i | 0 <= i < |ReaderHandles(s, key).queue| :: ReaderHandles(s, key).queue[i] == Deleted(key)
  {
    ReaderForm(s, key);
    ReadFeeds(s, key, due);
  }

  lemma AloneStep(s: State, a: Action, key: Key, due: Bytes)
    requires Alone(s, key, due) && (a == OwnerStep || a == ReaderStep(key))
    ensures Undisturbed(s, a, key) && Alone(Apply(s, a), key, due)
    ensures ReaderOf(Apply(s, a), key).snapshot == ReaderOf(s, key).snapshot
  {
    FedStep(s, a, key, due);
    FeedingStep(s, a, key, due);
    if a.OwnerStep? {
      AnsweredAlone(s, key, due);
    } else {
      ReadAlone(s, key, due);
    }
  }

  lemma {:induction false} AloneStays(s: State, key: Key, due: Bytes, n: nat)
    requires Alone(s, key, due)
    ensures Alone(Turns(s, key, n), key, due)
    ensures ReaderOf(Turns(s, key, n), key).snapshot == ReaderOf(s, key).snapshot
  {
    if n > 0 {
      AloneStays(s, key, due, n - 1);
      AloneStep(Turns(s, key, n - 1), TurnAt(key, n - 1), key, due);
    }
  }

  // ---------------------------------------------------------------- and so finishing

  lemma TurnGoesOn(s: State, key: Key, due: Bytes, n: nat)
    requires Alone(s, key, due)
    ensures var t := Turns(s, key, n);
            Watched(t, key) && Undisturbed(t, TurnAt(key, n), key) && Turns(s, key, n + 1) == Apply(t, TurnAt(key, n))
  {
    AloneStays(s, key, due, n);
    AloneStep(Turns(s, key, n), TurnAt(key, n), key, due);
  }

  /** Taking turns is fair. */
  lemma TurnsAreFair(s: State, key: Key, due: Bytes) returns (run: nat -> State, act: nat -> Action)
    requires Alone(s, key, due)
    ensures Fair(run, act, key) && forall n: nat :: run(n) == Turns(s, key, n)
  {
    run, act := (n: nat) => Turns(s, key, n), (n: nat) => TurnAt(key, n);
    forall n: nat ensures RunsOn(run, act, key, n) {
      TurnGoesOn(s, key, due, n);
      assert run(n) == Turns(s, key, n) && run(n + 1) == Turns(s, key, n + 1) && act(n) == TurnAt(key, n);
    }
    forall n: nat ensures TurnsAfter(act, key, n) {
      assert act(2 * n) == OwnerStep && act(2 * n + 1) == ReaderStep(key);
    }
  }

  /**
   A schedule that serves a request beside a live transfer of its property and brings the read
   to its end, with what that transfer had left: all it takes is that nobody else is waiting.
   */
  lemma RivalReadFinishes(s: State) returns (run: nat -> State, act: nat -> Action, m: nat)
    requires WellFormed(s.owner) && Begins(s) && Asked(s) && |s.queue| == 1
    ensures run(0) == OwnerHandles(s) && Fair(run, act, s.queue[0].key)
    ensures ReaderOf(run(m), s.queue[0].key).phase == Done(Due(s))
    ensures WellFormed(OwnerHandles(s).owner) && run(m) == Turns(OwnerHandles(s), s.queue[0].key, m)
    ensures ReaderOf(run(m), s.queue[0].key).snapshot == s.owned.value
  {
    var key, t := s.queue[0].key, OwnerHandles(s);
    ServingFeeds(s);
    WatchStep(s, OwnerStep, key.window);
    run, act := TurnsAreFair(t, key, Due(s));
    m := RestartedReadFinishes(s, run, act);
    AloneStays(t, key, Due(s), m);
  }

  // ---------------------------------------------------------------- as the end of a run

  lemma AnyRunOn(states: seq<State>, actions: seq<Action>, a: Action, t: State)
    returns (more: seq<State>, steps: seq<Action>)
    requires IsAnyRun(states, actions) && WellFormed(states[|actions|].owner) && Patient(states[|actions|], a)
    requires t == Apply(states[|actions|], a)
    ensures IsAnyRun(more, steps) && more[|steps|] == t
  {
    more, steps := states + [t], actions + [a];
    forall i | 0 <= i < |steps| ensures AnyStep(more, steps, i) {
      if i < |actions| {
        assert AnyStep(states, actions, i);
      }
    }
  }

  lemma TurnsNext(s: State, key: Key, n: nat)
    requires WellFormed(s.owner) && n > 0
    ensures var before := Turns(s, key, n - 1);
            Turns(s, key, n) == Apply(before, TurnAt(key, n - 1)) && Patient(before, TurnAt(key, n - 1))
  {
  }

  lemma {:induction false} TurnsOn(states: seq<State>, actions: seq<Action>, s: State, key: Key, n: nat)
    returns (more: seq<State>, steps: seq<Action>)
    requires IsAnyRun(states, actions) && s == states[|actions|] && WellFormed(s.owner)
    ensures IsAnyRun(more, steps) && more[|steps|] == Turns(s, key, n)
  {
    if n == 0 {
      more, steps := states, actions;
    } else {
      more, steps := TurnsOn(states, actions, s, key, n - 1);
      TurnsNext(s, key, n);
      more, steps := AnyRunOn(more, steps, TurnAt(key, n - 1), Turns(s, key, n));
    }
  }
}
