/** Client-side key repeat on Wayland, over whole runs of the keyboard listener. */
module KeyRepeat {
  import opened Bits
  import opened Division
  import opened Options
  import opened Sequences

  import opened EventCore

  const GUARD: nat := 32
  const SECOND: nat := 1000000000

  /** How the armed key is recorded; 0 is the idle marker. */
  function Marker(key: uint32): uint32 {
    Successor(key)
  }

  function Interval(rate: int): nat {
    if rate > 0 then SECOND / rate else 0
  }

  // ---------------------------------------------------------------- how many repeats are due

  /** What a pump should send: one for every deadline reached, at most 32. */
  function Owed(now: nat, next: nat, interval: nat): nat
    requires interval > 0
  {
    if now < next then 0
    else if (now - next) / interval + 1 < GUARD then (now - next) / interval + 1
    else GUARD
  }

  /** The next deadline after a pump: the one after the last repeat sent, or a whole interval from now at the guard. */
  function Deadline(now: nat, next: nat, interval: nat): (deadline: nat)
    requires interval > 0
    ensures Owed(now, next, interval) > 0 ==> now < deadline <= now + interval
  {
    var n := Owed(now, next, interval);
    if 0 < n < GUARD then DeadlineAhead(now, next, interval); next + n * interval
    else if n == GUARD then now + interval
    else next
  }

  lemma DeadlineAhead(now: nat, next: nat, interval: nat)
    requires interval > 0 && now >= next
    ensures now < next + ((now - next) / interval + 1) * interval <= now + interval
  {
    var q, r := (now - next) / interval, (now - next) % interval;
    assert now - next == q * interval + r;
    assert (q + 1) * interval == q * interval + interval;
  }

  /** The deadline is one of those the key started with, a whole number of intervals on. */
  predicate OnBeat(start: nat, interval: nat, deadline: nat)
    requires interval > 0
  {
    deadline >= start && (deadline - start) % interval == 0
  }

  /** A pump that sends something keeps to the grid unless it stops at the guard at a moment off the grid. */
  lemma GridKeptIff(now: nat, next: nat, interval: nat)
    requires interval > 0 && Owed(now, next, interval) > 0
    ensures OnBeat(next, interval, Deadline(now, next, interval)) <==>
              Owed(now, next, interval) < GUARD || (now - next) % interval == 0
  {
    var n, q, r := Owed(now, next, interval), (now - next) / interval, (now - next) % interval;
    if n < GUARD {
      QuotientIs(n, 0, interval);
    } else {
      assert now - next == q * interval + r;
      assert now + interval - next == (q + 1) * interval + r by {
        assert (q + 1) * interval == q * interval + interval;
      }
      QuotientIs(q + 1, r, interval);
    }
  }

  /**
   Exactly 32 repeats are due and all are sent, so nothing is left to catch up; the next
   deadline leaves the grid all the same, whenever the pump comes after the 32nd deadline.
   */
  lemma ExactlyAtGuard(next: nat, interval: nat, late: nat)
    requires 0 < late < interval
    ensures var now := next + (GUARD - 1) * interval + late;
            Owed(now, next, interval) == (now - next) / interval + 1 == GUARD && now < next + GUARD * interval &&
            Deadline(now, next, interval) == next + GUARD * interval + late &&
            !OnBeat(next, interval, Deadline(now, next, interval))
  {
    var now := next + (GUARD - 1) * interval + late;
    QuotientIs(GUARD - 1, late, interval);
    GridKeptIff(now, next, interval);
  }

  /** The catch-up loop stops after `n` repeats: their deadlines are reached, and the next is not or the guard is. */
  predicate CaughtUp(now: nat, next: nat, interval: nat, n: nat) {
    n <= GUARD && (n > 0 ==> now >= next + (n - 1) * interval) && (n < GUARD ==> now < next + n * interval)
  }

  /** Counting deadline by deadline gives the quotient, up to the guard, and the deadline that follows. */
  lemma PumpOutcome(now: nat, next: nat, interval: nat, n: nat)
    requires interval > 0 && CaughtUp(now, next, interval, n)
    ensures n == Owed(now, next, interval) <= GUARD
    ensures Deadline(now, next, interval) == if n >= GUARD then now + interval else next + n * interval
  {
    if n > 0 {
      QuotientBetween(now - next, interval, n);
    }
  }

  /** Of the first 32 repeats, those are sent whose deadlines are reached. */
  lemma OwedIs(now: nat, next: nat, interval: nat, k: nat)
    requires interval > 0 && k < 32
    ensures k < Owed(now, next, interval) <==> next + k * interval <= now
  {
    assert k * interval >= 0;
    if now >= next {
      var q, r := (now - next) / interval, (now - next) % interval;
      assert now - next == q * interval + r;
      StepOver(q, k, interval);
      StepOver(k, q, interval);
    }
  }

  lemma QuotientBetween(a: nat, d: nat, n: nat)
    requires d > 0 && n > 0 && (n - 1) * d <= a
    ensures a / d >= n - 1
    ensures a < n * d ==> a / d == n - 1
  {
    var q, r := a / d, a % d;
    assert a == q * d + r;
    StepOver(q, n - 1, d);
    StepOver(n - 1, q, d);
    assert n * d == (n - 1) * d + d;
  }

  /** The longest whole number of nanoseconds that fits `rate` times into a second. */
  lemma IntervalFitsRate(rate: int)
    requires rate > 0
    ensures rate * Interval(rate) <= 1000000000 < rate * (Interval(rate) + 1)
  {
    assert 1000000000 == rate * Interval(rate) + 1000000000 % rate;
    assert rate * (Interval(rate) + 1) == rate * Interval(rate) + rate;
  }

  /** Within a second of its first deadline a key repeats at least `rate` times, exactly if that divides a second. */
  lemma RatePerSecond(next: nat, rate: int)
    requires 0 < rate <= GUARD
    ensures Interval(rate) > 0 && Owed(next + 999999999, next, Interval(rate)) >= rate
    ensures rate < GUARD && 1000000000 % rate == 0 ==> Owed(next + 999999999, next, Interval(rate)) == rate
  {
    IntervalFitsRate(rate);
    var d := Interval(rate);
    assert (rate - 1) * d == rate * d - d;
    QuotientBetween(999999999, d, rate);
  }

  // ---------------------------------------------------------------- what an application sees

  /** Since the last blur of the window, the last event for the physical key in it is a press. */
  predicate PressedBy(log: seq<Event>, w: Id, raw: nat) {
    log != [] &&
    var last := log[|log| - 1];
    if last == Blur(w) then false
    else if last.Key? && last.window == w && last.scancode == raw then last.down
    else PressedBy(log[..|log| - 1], w, raw)
  }

  /** Every repeat in the log is of a key that is down in the window it goes to. */
  ghost predicate RepeatsHeld(log: seq<Event>) {
    forall i | 0 <= i < |log| :: RepeatHeldAt(log, i)
  }

  ghost predicate RepeatHeldAt(log: seq<Event>, i: nat)
    requires i < |log|
  {
    log[i].Key? && log[i].repeat ==> log[i].down && PressedBy(log[..i], log[i].window, log[i].scancode)
  }

  lemma LogPush(log: seq<Event>, e: Event)
    ensures RepeatsHeld(log + [e]) <==>
              RepeatsHeld(log) && (e.Key? && e.repeat ==> e.down && PressedBy(log, e.window, e.scancode))
    ensures forall w, raw ::
              PressedBy(log + [e], w, raw) ==
                if e == Blur(w) then false
                else if e.Key? && e.window == w && e.scancode == raw then e.down
                else PressedBy(log, w, raw)
  {
    var more := log + [e];
    assert more[..|log|] == log;
    forall i | 0 <= i < |log|
      ensures RepeatHeldAt(more, i) == RepeatHeldAt(log, i)
    {
      assert more[..i] == log[..i];
    }
    assert RepeatsHeld(more) ==> RepeatHeldAt(more, |log|);
    assert RepeatsHeld(more) ==> forall i | 0 <= i < |log| :: RepeatHeldAt(more, i);
  }

  lemma {:induction false} ReleasesRepeatNothing(log: seq<Event>, keys: seq<bool>, n: nat, w: Id, mods: nat)
    requires n <= |keys| && RepeatsHeld(log)
    ensures RepeatsHeld(log + Releases(keys, n, w, mods))
    decreases n
  {
    if n == 0 {
      assert log + [] == log;
    } else {
      ReleasesRepeatNothing(log, keys, n - 1, w, mods);
      var before := log + Releases(keys, n - 1, w, mods);
      if keys[n - 1] {
        var e := Key(w, n - 1, 0, mods, false, false);
        LogPush(before, e);
        ConcatAssoc(log, Releases(keys, n - 1, w, mods), [e]);
      } else {
        assert Releases(keys, n - 1, w, mods) + [] == Releases(keys, n - 1, w, mods);
      }
    }
  }

  /** A change of focus sends no repeat. */
  lemma FocusRepeatsNothing(log: seq<Event>, was: bool, focus: bool, keys: seq<bool>, w: Id, mods: nat)
    requires RepeatsHeld(log)
    ensures RepeatsHeld(log + FocusEvents(was, focus, keys, w, mods))
  {
    if was == focus {
      assert log + [] == log;
    } else if focus {
      LogPush(log, Focus(w));
    } else {
      var releases := Releases(keys, |keys|, w, mods);
      ReleasesRepeatNothing(log, keys, |keys|, w, mods);
      LogPush(log + releases, Blur(w));
      ConcatAssoc(log, releases, [Blur(w)]);
    }
  }

  /** Gaining the focus presses and releases nothing. */
  lemma FocusPressesNothing(log: seq<Event>, was: bool, w: Id)
    ensures var events := FocusEvents(was, true, [], w, 0);
            forall v, raw :: PressedBy(log + events, v, raw) == PressedBy(log, v, raw)
    ensures FocusEvents(was, true, [], w, 0) == if was then [] else [Focus(w)]
  {
    if was {
      assert log + [] == log;
    } else {
      LogPush(log, Focus(w));
    }
  }

  ghost predicate IsPress(e: Event, w: Id, raw: nat) {
    e.Key? && e.window == w && e.scancode == raw && e.down
  }

  /** Nothing between the two places releases the key or blurs the window. */
  ghost predicate HeldBetween(log: seq<Event>, j: nat, i: nat, w: Id, raw: nat)
    requires i <= |log|
  {
    forall k | j < k < i ::
      log[k] != Blur(w) && (log[k].Key? && log[k].window == w && log[k].scancode == raw ==> log[k].down)
  }

  lemma {:induction false} PressOf(log: seq<Event>, n: nat, w: Id, raw: nat) returns (j: nat)
    requires n <= |log| && PressedBy(log[..n], w, raw)
    ensures j < n && IsPress(log[j], w, raw) && HeldBetween(log, j, n, w, raw)
    decreases n
  {
    var last := n - 1;
    assert log[..n][..last] == log[..last];
    if log[last].Key? && log[last].window == w && log[last].scancode == raw {
      j := last;
    } else {
      j := PressOf(log, last, w, raw);
    }
  }

  /** Every repeat goes back to a first press, with no release of the key and no blur of the window in between. */
  lemma {:induction false} RepeatHasPress(log: seq<Event>, i: nat) returns (j: nat)
    requires RepeatsHeld(log) && i < |log| && log[i].Key? && log[i].repeat
    ensures j < i && IsPress(log[j], log[i].window, log[i].scancode) && !log[j].repeat
    ensures HeldBetween(log, j, i, log[i].window, log[i].scancode)
    decreases i
  {
    assert RepeatHeldAt(log, i);
    j := PressOf(log, i, log[i].window, log[i].scancode);
    if log[j].repeat {
      j := RepeatHasPress(log, j);
    }
  }

  /** A key event, and the text a press or a repeat types at that moment. */
  function Typed(e: Event, text: seq<byte>): seq<Event>
    requires e.Key?
  {
    [e] + if e.down then TextEvents(e.window, text) else []
  }

  /** The key event comes first, and text only with a press or a repeat. */
  lemma TypedIs(e: Event, text: seq<byte>)
    requires e.Key?
    ensures e.down && text != [] ==> Typed(e, text) == [e, Text(e.window, if |text| <= 31 then text else text[..31])]
    ensures !e.down || text == [] ==> Typed(e, text) == [e]
  {
  }

  /** The first `n` repeats. */
  function Repeats(e: Event, texts: nat -> seq<byte>, n: nat): seq<Event>
    requires e.Key?
    decreases e, n
  {
    if n == 0 then [] else Repeats(e, texts, n - 1) + Typed(e, texts(n - 1))
  }

  /** How many key events a list holds. */
  function KeyEvents(events: seq<Event>): nat {
    if events == [] then 0 else KeyEvents(events[..|events| - 1]) + if events[|events| - 1].Key? then 1 else 0
  }

  lemma {:induction false} KeyEventsConcat(a: seq<Event>, b: seq<Event>)
    ensures KeyEvents(a + b) == KeyEvents(a) + KeyEvents(b)
    decreases |b|
  {
    if b == [] {
      assert a + b == a;
    } else {
      KeyEventsConcat(a, b[..|b| - 1]);
      assert (a + b)[..|a + b| - 1] == a + b[..|b| - 1];
    }
  }

  /** `n` repeats are `n` key events, whatever they type. */
  lemma {:induction false} RepeatsCounted(e: Event, texts: nat -> seq<byte>, n: nat)
    requires e.Key?
    ensures KeyEvents(Repeats(e, texts, n)) == n
    decreases n
  {
    if n > 0 {
      RepeatsCounted(e, texts, n - 1);
      KeyEventsConcat(Repeats(e, texts, n - 1), Typed(e, texts(n - 1)));
      OneKeyEvent(e, texts(n - 1));
    }
  }

  lemma OneKeyEvent(e: Event, text: seq<byte>)
    requires e.Key?
    ensures KeyEvents(Typed(e, text)) == 1
  {
    var more := if e.down then TextEvents(e.window, text) else [];
    KeyEventsConcat([e], more);
    assert KeyEvents([e]) == 1;
    assert KeyEvents(more) == 0;
  }

  /** Text is no repeat, and presses and releases nothing. */
  lemma TextPush(log: seq<Event>, t: Event)
    requires t.Text?
    ensures RepeatsHeld(log + [t]) == RepeatsHeld(log)
    ensures forall w, raw :: PressedBy(log + [t], w, raw) == PressedBy(log, w, raw)
  {
    LogPush(log, t);
  }

  lemma TypedPush(log: seq<Event>, e: Event, text: seq<byte>)
    requires e.Key? && RepeatsHeld(log) && (e.repeat ==> e.down && PressedBy(log, e.window, e.scancode))
    ensures RepeatsHeld(log + Typed(e, text))
    ensures forall w, raw ::
              PressedBy(log + Typed(e, text), w, raw) ==
                if e.window == w && e.scancode == raw then e.down else PressedBy(log, w, raw)
  {
    var more := TextEvents(e.window, text);
    if e.down && text != [] {
      assert log + Typed(e, text) == log + [e] + [more[0]];
      TextPush(log + [e], more[0]);
    } else {
      assert Typed(e, text) == [e];
    }
    LogPush(log, e);
  }

  /** One repeat more in the log, and one interval more on the grid. */
  lemma Advance(after: seq<Event>, log: seq<Event>, e: Event, texts: nat -> seq<byte>, start: nat, interval: nat,
                n: nat)
    requires e.Key? && after == log + Repeats(e, texts, n) + Typed(e, texts(n))
    ensures after == log + Repeats(e, texts, n + 1) && start + n * interval + interval == start + (n + 1) * interval
  {
    ConcatAssoc(log, Repeats(e, texts, n), Typed(e, texts(n)));
  }

  // ---------------------------------------------------------------- the keyboard

  class Keyboard {
    const core: Core
    var keymap: bool
    var keycodes: seq<int>
    var repeats: set<nat>
    var rate: int
    var delay: nat
    var repeatKey: uint32
    var repeatWindow: Option<Id>
    var repeatNext: nat
    var focus: Option<Id>
    /** So far every window was left before another was entered. */
    ghost var proper: bool

    ghost predicate Armed()
      reads this`repeatKey, this`repeatWindow
    {
      repeatKey != 0 && repeatWindow.Some?
    }

    ghost predicate Focused(w: Id)
      reads core
    {
      w in core.focused && core.focused[w]
    }

    /** An armed repeat belongs to a key still held in a registered window that has not lost the focus. */
    ghost predicate Valid()
      reads this`keycodes, this`focus, this`repeatKey, this`repeatWindow, this`proper, core, core.keys
    {
      core.Valid() && |keycodes| == 256 &&
      (focus.Some? ==> Focused(focus.value)) && (repeatWindow.Some? ==> Focused(repeatWindow.value)) &&
      (proper && repeatWindow.Some? ==> repeatWindow == focus) &&
      RepeatsHeld(core.log) && (Armed() ==> PressedBy(core.log, repeatWindow.value, repeatKey - 1))
    }

    constructor (core: Core)
      requires core.Valid() && RepeatsHeld(core.log)
      ensures Valid() && this.core == core && !Armed() && focus == None && rate == 25 && delay == 400 && proper
    {
      this.core := core;
      keymap, keycodes, repeats := false, seq(256, _ => 0), {};
      rate, delay := 25, 400;
      repeatKey, repeatWindow, repeatNext, focus, proper := 0, None, 0, None, true;
    }

    /** The key code of an evdev code: XKB counts from eight. */
    function KeyOf(raw: uint32): (key: int)
      reads this`keycodes
      requires |keycodes| == 256
      ensures raw < 248 ==> key == keycodes[raw + 8]
      ensures raw >= 248 ==> key == 0
    {
      if raw + 8 < 256 then keycodes[raw + 8] else 0
    }

    /** The event of one repeat. */
    ghost function RepeatEvent(mods: nat): (e: Event)
      reads this`keycodes, this`repeatKey, this`repeatWindow
      requires |keycodes| == 256 && Armed()
      ensures e.Key? && e.repeat && e.down && e.scancode + 1 == repeatKey && repeatWindow == Some(e.window)
    {
      Key(repeatWindow.value, KeyOf(repeatKey - 1), repeatKey - 1, mods, true, true)
    }

    method StartRepeat(w: Id, raw: uint32, now: nat)
      modifies this`repeatKey, this`repeatWindow, this`repeatNext
      ensures if rate > 0 && keymap && raw + 8 in repeats
              then repeatKey == Marker(raw) && repeatWindow == Some(w) && repeatNext == now + delay * 1000000
              else repeatKey == old(repeatKey) && repeatWindow == old(repeatWindow) && repeatNext == old(repeatNext)
    {
      if rate <= 0 || !keymap {
        return;
      }
      if raw + 8 !in repeats {
        return;
      }
      repeatKey := Marker(raw);
      repeatWindow := Some(w);
      repeatNext := now + delay * 1000000;
    }

    method StopRepeat()
      modifies this`repeatKey, this`repeatWindow
      ensures repeatKey == 0 && repeatWindow == None
    {
      repeatKey, repeatWindow := 0, None;
    }

    /** Seconds until the next repeat; 0 when it is due, -1 when there is none. */
    method NextTimeout(now: nat) returns (timeout: real)
      ensures !Armed() ==> timeout == -1.0
      ensures Armed() ==> timeout >= 0.0 && (timeout == 0.0 <==> now >= repeatNext)
      ensures Armed() && now < repeatNext ==> now as real + timeout * SECOND as real == repeatNext as real
    {
      if repeatKey == 0 || repeatWindow.None? {
        return -1.0;
      }
      if now >= repeatNext {
        return 0.0;
      }
      return (repeatNext - now) as real / SECOND as real;
    }

    /** The repeats that are due, in one go, and the new deadline. */
    method PumpKeyRepeat(now: nat, mods: nat, texts: nat -> seq<byte>) returns (ghost n: nat)
      requires Valid()
      modifies this`repeatNext, core`mods, core`queue, core`log, core`serials, core.keys
      ensures Valid()
      ensures n <= 32 && n == if Armed() && Interval(rate) > 0 then Owed(now, old(repeatNext), Interval(rate)) else 0
      ensures repeatNext == if n == 0 then old(repeatNext) else Deadline(now, old(repeatNext), Interval(rate))
      ensures n == GUARD ==> repeatNext == now + Interval(rate)
      ensures core.log == old(core.log) + if n == 0 then [] else Repeats(RepeatEvent(mods), texts, n)
    {
      n := 0;
      if repeatKey == 0 || repeatWindow.None? {
        return;
      }
      var interval := Interval(rate);
      if interval == 0 {
        return;
      }
      ghost var e := RepeatEvent(mods);
      var guard := FireRepeats(now, interval, mods, texts);
      n := guard;
      if guard >= GUARD {
        repeatNext := now + interval;
      }
      assert RepeatEvent(mods) == e;
    }

    /** The catch-up loop; the guard keeps it from spinning. */
    method FireRepeats(now: nat, interval: nat, mods: nat, texts: nat -> seq<byte>) returns (guard: nat)
      requires Valid() && Armed() && interval > 0
      modifies this`repeatNext, core`mods, core`queue, core`log, core`serials, core.keys
      ensures Valid() && guard == Owed(now, old(repeatNext), interval)
      ensures guard < GUARD ==> repeatNext == Deadline(now, old(repeatNext), interval)
      ensures core.log == old(core.log) + Repeats(RepeatEvent(mods), texts, guard)
    {
      guard := 0;
      ghost var start, log := repeatNext, core.log;
      assert log + [] == log;
      while now >= repeatNext && guard < GUARD
        invariant Underway(start, log, interval, mods, texts, guard)
        invariant guard <= GUARD && (guard > 0 ==> now >= repeatNext - interval)
        decreases GUARD - guard
      {
        FireOne(interval, mods, texts, guard, start, log);
        guard := guard + 1;
      }
      PumpOutcome(now, start, interval, guard);
    }

    /** After `n` repeats of a pump that began with this deadline and this log. */
    ghost predicate Underway(start: nat, log: seq<Event>, interval: nat, mods: nat, texts: nat -> seq<byte>, n: nat)
      reads this`keycodes, this`focus, this`repeatKey, this`repeatWindow, this`repeatNext, this`proper, core, core.keys
    {
      Valid() && Armed() && repeatNext == start + n * interval && core.log == log + Repeats(RepeatEvent(mods), texts, n)
    }

    method FireOne(interval: nat, mods: nat, texts: nat -> seq<byte>, guard: nat, ghost start: nat,
                   ghost log: seq<Event>)
      requires Underway(start, log, interval, mods, texts, guard)
      modifies this`repeatNext, core`mods, core`queue, core`log, core`serials, core.keys
      ensures Underway(start, log, interval, mods, texts, guard + 1) && repeatNext == old(repeatNext) + interval
    {
      ghost var e := RepeatEvent(mods);
      SendKey(repeatWindow.value, repeatKey - 1, mods, true, true, texts(guard));
      Advance(core.log, log, e, texts, start, interval, guard);
      repeatNext := repeatNext + interval;
      assert Valid() && Armed();
      assert e == RepeatEvent(mods) && core.log == log + Repeats(e, texts, guard + 1);
    }

    /** The event of a key, and for a press or a repeat the text it types. */
    method SendKey(w: Id, raw: uint32, mods: nat, down: bool, repeat: bool, text: seq<byte>)
      requires core.Valid() && Focused(w) && |keycodes| == 256 && RepeatsHeld(core.log)
      requires repeat ==> down && PressedBy(core.log, w, raw)
      modifies core`mods, core`queue, core`log, core`serials, core.keys
      ensures core.Valid() && RepeatsHeld(core.log)
      ensures core.log == old(core.log) + Typed(Key(w, KeyOf(raw), raw, mods, down, repeat), text)
      ensures down ==> PressedBy(core.log, w, raw)
    {
      ghost var e := Key(w, KeyOf(raw), raw, mods, down, repeat);
      TypedPush(core.log, e, text);
      ConcatAssoc(core.log, [e], TextEvents(w, text));
      core.EmitKey(w, KeyOf(raw), raw, mods, down, repeat);
      if down {
        core.EmitText(w, text);
      }
      assert core.log == old(core.log) + Typed(e, text);
    }

    method KeyboardKeymap(keycodes: seq<int>, repeats: set<nat>)
      requires Valid() && |keycodes| == 256
      modifies this`keymap, this`keycodes, this`repeats
      ensures Valid() && keymap && this.keycodes == keycodes && this.repeats == repeats
    {
      keymap, this.keycodes, this.repeats := true, keycodes, repeats;
    }

    /** The compositor promises a leave before the next enter; without one, an armed repeat stays with its window. */
    method KeyboardEnter(w: Option<Id>)
      requires Valid() && (w.Some? ==> w.value in core.focused)
      modifies this`focus, this`proper, core`mods, core`queue, core`focused, core`log, core`serials, core.keys
      ensures Valid() && focus == if w.Some? then w else old(focus)
      ensures proper == (old(proper) && (w.None? || old(focus).None? || old(focus) == w))
      ensures core.log == old(core.log) + if w.Some? && !old(core.focused)[w.value] then [Focus(w.value)] else []
    {
      if w.Some? {
        proper := proper && (focus.None? || focus == w);
        focus := w;
        GainFocus(w.value);
        assert forall v | old(Focused(v)) :: Focused(v);
        assert Armed() ==> PressedBy(core.log, repeatWindow.value, repeatKey - 1);
      }
    }

    method GainFocus(w: Id)
      requires core.Valid() && w in core.focused && RepeatsHeld(core.log)
      modifies core`mods, core`queue, core`focused, core`log, core`serials, core.keys
      ensures core.Valid() && RepeatsHeld(core.log) && core.focused == old(core.focused)[w := true]
      ensures core.log == old(core.log) + if old(core.focused)[w] then [] else [Focus(w)]
      ensures forall v, raw :: PressedBy(core.log, v, raw) == PressedBy(old(core.log), v, raw)
    {
      FocusRepeatsNothing(core.log, core.focused[w], true, core.keys[..], w, core.mods);
      FocusPressesNothing(core.log, core.focused[w], w);
      core.EmitFocus(w, true);
    }

    method KeyboardLeave()
      requires Valid()
      modifies this`repeatKey, this`repeatWindow, this`focus
      modifies core`mods, core`queue, core`focused, core`log, core`serials, core.keys
      ensures Valid() && focus == None && !Armed()
      ensures core.log == old(core.log) +
                if old(focus).None? then []
                else FocusEvents(true, false, old(core.keys[..]), old(focus).value, old(core.mods))
    {
      StopRepeat();
      if focus.Some? {
        var w := focus.value;
        focus := None;
        FocusRepeatsNothing(core.log, core.focused[w], false, core.keys[..], w, core.mods);
        core.EmitFocus(w, false);
      }
    }

    method KeyboardKey(raw: uint32, pressed: bool, mods: nat, now: nat, text: seq<byte>)
      requires Valid()
      modifies this`repeatKey, this`repeatWindow, this`repeatNext
      modifies core`mods, core`queue, core`log, core`serials, core.keys
      ensures Valid()
      ensures focus.None? ==> core.log == old(core.log)
      ensures focus.Some? ==>
                core.log == old(core.log) + Typed(Key(focus.value, KeyOf(raw), raw, mods, pressed, false), text)
      ensures if focus.Some? && pressed && rate > 0 && keymap && raw + 8 in repeats
              then repeatKey == Marker(raw) && repeatWindow == focus && repeatNext == now + delay * 1000000
              else if focus.Some? && !pressed && old(repeatKey) == Marker(raw)
              then repeatKey == 0 && repeatWindow == None
              else repeatKey == old(repeatKey) && repeatWindow == old(repeatWindow) && repeatNext == old(repeatNext)
    {
      if focus.None? {
        return;
      }
      TypedPush(core.log, Key(focus.value, KeyOf(raw), raw, mods, pressed, false), text);
      SendKey(focus.value, raw, mods, pressed, false, text);
      if pressed {
        StartRepeat(focus.value, raw, now);
      } else if repeatKey == Marker(raw) {
        StopRepeat();
      }
    }

    method KeyboardRepeatInfo(rate: int, delay: nat)
      requires Valid()
      modifies this`rate, this`delay, this`repeatKey, this`repeatWindow
      ensures Valid() && this.rate == rate && this.delay == delay
      ensures rate == 0 ==> !Armed()
      ensures rate != 0 ==> repeatKey == old(repeatKey) && repeatWindow == old(repeatWindow)
    {
      this.rate, this.delay := rate, delay;
      if rate == 0 {
        StopRepeat();
      }
    }

    /** Destroying a window: first the core forgets it, then the backend does. */
    method DestroyWindow(w: Id)
      requires Valid()
      modifies this`focus, this`repeatKey, this`repeatWindow, core`queue, core`focused, core`serials
      ensures Valid() && w !in core.focused && focus != Some(w)
      ensures old(repeatWindow) == Some(w) ==> !Armed()
      ensures old(repeatWindow) != Some(w) ==> repeatKey == old(repeatKey) && repeatWindow == old(repeatWindow)
    {
      core.Destroy(w);
      assert core.focused == old(core.focused) - {w};
      if focus == Some(w) {
        focus := None;
      }
      if repeatWindow == Some(w) {
        repeatWindow := None;
        repeatKey := 0;
      }
    }
  }
}
