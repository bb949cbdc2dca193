/** The event core: latched keys, focus, and a queue that forgets destroyed windows. */
module EventCore {
  import opened Bits
  import opened Options
  import opened Sequences

  const KEY_COUNT: nat := 256
  const TEXT_SIZE: nat := 32

  /** A window's identity; unlike its address it is never used again. */
  type Id = nat

  datatype Event =
    | Key(window: Id, key: int, scancode: nat, mods: nat, down: bool, repeat: bool)
    | Focus(window: Id)
    | Blur(window: Id)
    | Text(window: Id, utf8: seq<byte>)
    | Other(window: Id, kind: nat)

  // ---------------------------------------------------------------- what a log of events says

  predicate Latches(key: int) {
    0 < key < KEY_COUNT
  }

  /** The last key event for the key is a press. */
  predicate Held(log: seq<Event>, key: int) {
    log != [] &&
    var last := log[|log| - 1];
    if last.Key? && last.key == key then last.down else Held(log[..|log| - 1], key)
  }

  /** The last focus or blur event of the window is a focus. */
  predicate FocusedBy(log: seq<Event>, w: Id) {
    log != [] &&
    var last := log[|log| - 1];
    if last == Focus(w) then true else if last == Blur(w) then false else FocusedBy(log[..|log| - 1], w)
  }

  ghost predicate NothingHeld(log: seq<Event>) {
    forall key | Latches(key) :: !Held(log, key)
  }

  /** What may follow a log: a focus only of an unfocused window, a blur only of a focused one with no key held. */
  ghost predicate MayFollow(log: seq<Event>, e: Event) {
    (e.Focus? ==> !FocusedBy(log, e.window)) && (e.Blur? ==> FocusedBy(log, e.window) && NothingHeld(log))
  }

  ghost predicate Orderly(log: seq<Event>) {
    log == [] || (Orderly(log[..|log| - 1]) && MayFollow(log[..|log| - 1], log[|log| - 1]))
  }

  lemma Push(log: seq<Event>, e: Event)
    ensures forall key :: Held(log + [e], key) == if e.Key? && e.key == key then e.down else Held(log, key)
    ensures forall w ::
              FocusedBy(log + [e], w) ==
                if e == Focus(w) then true else if e == Blur(w) then false else FocusedBy(log, w)
    ensures Orderly(log + [e]) <==> Orderly(log) && MayFollow(log, e)
  {
    assert (log + [e])[..|log|] == log;
  }

  lemma {:induction false} OrderlyAt(log: seq<Event>, i: nat)
    requires Orderly(log) && i < |log|
    ensures MayFollow(log[..i], log[i])
    decreases |log|
  {
    var last := |log| - 1;
    if i < last {
      OrderlyAt(log[..last], i);
      assert log[..last][..i] == log[..i];
    }
  }

  /** Between two focus events of a window there is a blur. */
  lemma {:induction false} Alternates(log: seq<Event>, w: Id, i: nat, j: nat)
    requires Orderly(log) && i < j < |log| && log[i] == Focus(w) && log[j] == Focus(w)
    ensures exists k :: i < k < j && log[k] == Blur(w)
  {
    OrderlyAt(log, j);
    if forall k | i < k < j :: log[k] != Blur(w) {
      StaysFocused(log, w, i, j);
    }
  }

  lemma {:induction false} StaysFocused(log: seq<Event>, w: Id, i: nat, j: nat)
    requires i < j <= |log| && log[i] == Focus(w) && forall k | i < k < j :: log[k] != Blur(w)
    ensures FocusedBy(log[..j], w)
    decreases j
  {
    assert log[..j][..j - 1] == log[..j - 1];
    if j > i + 1 {
      StaysFocused(log, w, i, j - 1);
    }
  }

  /** A press that is not released before a blur does not exist: somewhere in between stands its release. */
  lemma {:induction false} ReleasedBeforeBlur(log: seq<Event>, i: nat, j: nat)
    requires Orderly(log) && i < j < |log| && log[i].Key? && log[i].down && 0 < log[i].key < 256 && log[j].Blur?
    ensures exists k :: i < k < j && log[k].Key? && log[k].key == log[i].key && !log[k].down
  {
    OrderlyAt(log, j);
    if forall k | i < k < j :: !(log[k].Key? && log[k].key == log[i].key && !log[k].down) {
      StaysHeld(log, i, j);
    }
  }

  lemma {:induction false} StaysHeld(log: seq<Event>, i: nat, j: nat)
    requires i < j <= |log| && log[i].Key? && log[i].down
    requires forall k | i < k < j :: !(log[k].Key? && log[k].key == log[i].key && !log[k].down)
    ensures Held(log[..j], log[i].key)
    decreases j
  {
    assert log[..j][..j - 1] == log[..j - 1];
    if j > i + 1 {
      StaysHeld(log, i, j - 1);
    }
  }

  // ---------------------------------------------------------------- the queue's account

  ghost predicate Increasing(s: seq<nat>) {
    forall i, j | 0 <= i < j < |s| :: s[i] < s[j]
  }

  ghost predicate Recorded(sent: seq<nat>, serials: seq<nat>, n: nat) {
    n in sent || n in serials
  }

  /**
    * `sent` and `serials` number the delivered and the queued events by their place in the log: nothing is
    * reordered or repeated, and only events of windows that are gone are missing.
    */
  ghost predicate Account(log: seq<Event>, sent: seq<nat>, serials: seq<nat>, queue: seq<Event>, live: set<Id>) {
    |serials| == |queue| && Increasing(sent + serials) &&
    (forall i | 0 <= i < |sent| :: sent[i] < |log|) &&
    (forall i | 0 <= i < |queue| :: serials[i] < |log| && queue[i] == log[serials[i]] && queue[i].window in live) &&
    (forall n: nat {:trigger Recorded(sent, serials, n)} | n < |log| && log[n].window in live ::
       Recorded(sent, serials, n))
  }

  lemma AccountPush(log: seq<Event>, sent: seq<nat>, serials: seq<nat>, queue: seq<Event>, live: set<Id>, e: Event)
    requires Account(log, sent, serials, queue, live) && e.window in live
    ensures Account(log + [e], sent, serials + [|log|], queue + [e], live)
  {
    assert sent + (serials + [|log|]) == (sent + serials) + [|log|];
    forall i | 0 <= i < |sent + serials|
      ensures (sent + serials)[i] < |log|
    {
      assert i >= |sent| ==> (sent + serials)[i] == serials[i - |sent|];
    }
    forall n: nat | n < |log + [e]| && (log + [e])[n].window in live
      ensures Recorded(sent, serials + [|log|], n)
    {
      if n == |log| {
        assert (serials + [|log|])[|serials|] == n;
      } else {
        assert (log + [e])[n] == log[n];
        assert Recorded(sent, serials, n);
      }
    }
  }

  lemma AccountPop(log: seq<Event>, sent: seq<nat>, serials: seq<nat>, queue: seq<Event>, live: set<Id>)
    requires Account(log, sent, serials, queue, live) && queue != []
    ensures Account(log, sent + [serials[0]], serials[1..], queue[1..], live)
  {
    assert (sent + [serials[0]]) + serials[1..] == sent + serials;
    forall n: nat | n < |log| && log[n].window in live
      ensures Recorded(sent + [serials[0]], serials[1..], n)
    {
      assert Recorded(sent, serials, n);
      if n in serials {
        var i :| 0 <= i < |serials| && serials[i] == n;
        assert i > 0 ==> serials[1..][i - 1] == n;
      }
    }
  }

  /** `remove_if` over the queue: the events of other windows, in their order. */
  function Without(queue: seq<Event>, w: Id): seq<Event> {
    if queue == [] then []
    else Without(queue[..|queue| - 1], w) + if queue[|queue| - 1].window == w then [] else [queue[|queue| - 1]]
  }

  function KeptSerials(queue: seq<Event>, serials: seq<nat>, w: Id): seq<nat>
    requires |serials| == |queue|
  {
    if queue == [] then []
    else KeptSerials(queue[..|queue| - 1], serials[..|queue| - 1], w) +
         if queue[|queue| - 1].window == w then [] else [serials[|queue| - 1]]
  }

  lemma {:induction false} PurgeKeeps(log: seq<Event>, sent: seq<nat>, serials: seq<nat>, queue: seq<Event>, w: Id)
    requires |serials| == |queue| && Increasing(sent + serials)
    requires forall i | 0 <= i < |queue| :: serials[i] < |log| && queue[i] == log[serials[i]]
    ensures var kept := KeptSerials(queue, serials, w);
            |kept| == |Without(queue, w)| && Increasing(sent + kept) &&
            (forall i | 0 <= i < |kept| ::
               kept[i] in serials && Without(queue, w)[i] == log[kept[i]] && log[kept[i]].window != w) &&
            (forall n | n in serials && log[n].window != w :: n in kept)
    decreases |queue|
  {
    if queue == [] {
      assert sent + serials == sent;
      assert sent + [] == sent;
    } else {
      var last := |queue| - 1;
      var fewer := serials[..last];
      assert (sent + serials)[..|sent| + last] == sent + fewer;
      PurgeKeeps(log, sent, fewer, queue[..last], w);
      var kept := KeptSerials(queue[..last], fewer, w);
      assert serials == fewer + [serials[last]];
      if queue[last].window == w {
        assert KeptSerials(queue, serials, w) == kept;
        assert Without(queue, w) == Without(queue[..last], w);
      } else {
        PurgeLast(sent, serials, kept);
      }
    }
  }

  lemma PurgeLast(sent: seq<nat>, serials: seq<nat>, kept: seq<nat>)
    requires serials != [] && Increasing(sent + serials) && Increasing(sent + kept)
    requires forall i | 0 <= i < |kept| :: kept[i] in serials[..|serials| - 1]
    ensures Increasing(sent + (kept + [serials[|serials| - 1]]))
  {
    var top := serials[|serials| - 1];
    assert sent + (kept + [top]) == (sent + kept) + [top];
    forall i | 0 <= i < |sent + kept|
      ensures (sent + kept)[i] < top
    {
      assert (sent + serials)[|sent + serials| - 1] == top;
      if i < |sent| {
        assert (sent + serials)[i] == sent[i];
      } else {
        var fewer := serials[..|serials| - 1];
        assert kept[i - |sent|] in fewer;
        var k :| 0 <= k < |fewer| && fewer[k] == kept[i - |sent|];
        assert (sent + serials)[|sent| + k] == fewer[k];
      }
    }
  }

  lemma AccountPurge(log: seq<Event>, sent: seq<nat>, serials: seq<nat>, queue: seq<Event>, live: set<Id>, w: Id)
    requires Account(log, sent, serials, queue, live)
    ensures Account(log, sent, KeptSerials(queue, serials, w), Without(queue, w), live - {w})
  {
    PurgeKeeps(log, sent, serials, queue, w);
    forall n: nat | n < |log| && log[n].window in live - {w}
      ensures Recorded(sent, KeptSerials(queue, serials, w), n)
    {
      assert Recorded(sent, serials, n);
    }
  }

  // ---------------------------------------------------------------- emitters

  /** The releases a blur sends first, in key order. */
  function Releases(keys: seq<bool>, n: nat, w: Id, mods: nat): seq<Event>
    requires n <= |keys|
    decreases |keys|, n
  {
    if n == 0 then []
    else Releases(keys, n - 1, w, mods) + if keys[n - 1] then [Key(w, n - 1, 0, mods, false, false)] else []
  }

  lemma ReleasesNext(log: seq<Event>, keys: seq<bool>, n: nat, w: Id, mods: nat)
    requires n < |keys|
    ensures log + Releases(keys, n, w, mods) + (if keys[n] then [Key(w, n, 0, mods, false, false)] else []) ==
              log + Releases(keys, n + 1, w, mods)
  {
    ConcatAssoc(log, Releases(keys, n, w, mods), if keys[n] then [Key(w, n, 0, mods, false, false)] else []);
  }

  /** One release for each held key and for no other, in the order of the keys, with the modifiers as they were. */
  lemma {:induction false} ReleasesExact(keys: seq<bool>, n: nat, w: Id, mods: nat)
    requires n <= |keys|
    ensures forall k: nat :: Key(w, k, 0, mods, false, false) in Releases(keys, n, w, mods) <==> k < n && keys[k]
    ensures forall e | e in Releases(keys, n, w, mods) ::
              e.Key? && 0 <= e.key && e == Key(w, e.key, 0, mods, false, false)
    decreases n
  {
    if n > 0 {
      ReleasesExact(keys, n - 1, w, mods);
    }
  }

  /** Key events below `n`, each key once and in order. */
  ghost predicate Ascending(events: seq<Event>, n: nat) {
    (forall i | 0 <= i < |events| :: events[i].Key? && events[i].key < n) &&
    forall i, j | 0 <= i < j < |events| :: events[i].key < events[j].key
  }

  lemma {:induction false} ReleasesInOrder(keys: seq<bool>, n: nat, w: Id, mods: nat)
    requires n <= |keys|
    ensures Ascending(Releases(keys, n, w, mods), n)
    decreases n
  {
    if n > 0 {
      ReleasesInOrder(keys, n - 1, w, mods);
    }
  }

  function FocusEvent(w: Id, focus: bool): Event {
    if focus then Focus(w) else Blur(w)
  }

  /** What a change of focus sends: nothing if there is no change, and the releases before a blur. */
  function FocusEvents(was: bool, focus: bool, keys: seq<bool>, w: Id, mods: nat): seq<Event> {
    if was == focus then [] else if focus then [Focus(w)] else Releases(keys, |keys|, w, mods) + [Blur(w)]
  }

  /** An event holds its text and a terminating NUL; empty text sends nothing. */
  function TextEvents(w: Id, utf8: seq<byte>): seq<Event> {
    if utf8 == [] then [] else [Text(w, if |utf8| < TEXT_SIZE then utf8 else utf8[..TEXT_SIZE - 1])]
  }

  /** At most 31 bytes of the text are sent, in one event; no text, no event. */
  lemma TextEventIs(w: Id, utf8: seq<byte>)
    ensures utf8 == [] <==> TextEvents(w, utf8) == []
    ensures utf8 != [] ==> TextEvents(w, utf8) == [Text(w, if |utf8| <= 31 then utf8 else utf8[..31])]
  {
  }

  class Core {
    const keys: array<bool>
    var mods: nat
    var queue: seq<Event>
    /** The registered windows, and whether each has the focus. */
    var focused: map<Id, bool>
    ghost var log: seq<Event>
    ghost var sent: seq<nat>
    ghost var serials: seq<nat>
    ghost var used: set<Id>

    /** The latches agree with the log, except perhaps for one key. */
    ghost predicate Latched(but: int)
      reads this, keys
    {
      keys.Length == KEY_COUNT && !keys[0] &&
      forall key | Latches(key) && key != but :: keys[key] == Held(log, key)
    }

    ghost predicate Sound()
      reads this
    {
      Orderly(log) && Account(log, sent, serials, queue, focused.Keys) && focused.Keys <= used &&
      (forall n | 0 <= n < |log| :: log[n].window in used) && forall w :: w !in used ==> !FocusedBy(log, w)
    }

    ghost predicate FocusKnown()
      reads this
    {
      forall w | w in focused :: focused[w] == FocusedBy(log, w)
    }

    ghost predicate Valid()
      reads this, keys
    {
      Latched(0) && Sound() && FocusKnown()
    }

    constructor ()
      ensures Valid() && log == [] && queue == [] && focused == map[] && fresh(keys)
    {
      keys := new bool[KEY_COUNT](_ => false);
      mods, queue, focused := 0, [], map[];
      log, sent, serials, used := [], [], [], {};
    }

    method Register(w: Id)
      requires Valid() && w !in used
      modifies this
      ensures Valid() && focused == old(focused)[w := false] && log == old(log) && queue == old(queue)
    {
      focused := focused[w := false];
      used := used + {w};
    }

    method PushEvent(e: Event)
      requires Sound() && e.window in focused && MayFollow(log, e)
      modifies this`queue, this`log, this`serials
      ensures Sound() && log == old(log) + [e] && queue == old(queue) + [e]
    {
      AccountPush(log, sent, serials, queue, focused.Keys, e);
      Push(log, e);
      queue := queue + [e];
      log, serials := log + [e], serials + [|log|];
    }

    /** A mouse event also says which modifiers are held; other events leave them as they are. */
    method EmitOther(w: Id, kind: nat, newMods: Option<nat>)
      requires Valid() && w in focused
      modifies this`mods, this`queue, this`log, this`serials
      ensures Valid() && log == old(log) + [Other(w, kind)] && queue == old(queue) + [Other(w, kind)]
      ensures mods == if newMods.Some? then newMods.value else old(mods)
    {
      if newMods.Some? {
        mods := newMods.value;
      }
      Push(log, Other(w, kind));
      PushEvent(Other(w, kind));
    }

    method EmitText(w: Id, utf8: seq<byte>)
      requires Valid() && w in focused
      modifies this`queue, this`log, this`serials
      ensures Valid() && log == old(log) + TextEvents(w, utf8) && queue == old(queue) + TextEvents(w, utf8)
    {
      if utf8 == [] {
        return;
      }
      var n := |utf8|;
      if n >= TEXT_SIZE {
        n := TEXT_SIZE - 1;
      }
      assert utf8[..|utf8|] == utf8;
      Push(log, Text(w, utf8[..n]));
      PushEvent(Text(w, utf8[..n]));
    }

    method EmitKey(w: Id, key: int, scancode: nat, mods: nat, down: bool, repeat: bool)
      requires Latched(key) && Sound() && FocusKnown() && w in focused
      modifies this`mods, this`queue, this`log, this`serials, keys
      ensures Valid() && this.mods == mods
      ensures log == old(log) + [Key(w, key, scancode, mods, down, repeat)]
      ensures queue == old(queue) + [Key(w, key, scancode, mods, down, repeat)]
      ensures keys[..] == if 0 < key < 256 then old(keys[..])[key := down] else old(keys[..])
    {
      if key > 0 && key < KEY_COUNT {
        keys[key] := down;
      }
      this.mods := mods;
      PushKey(Key(w, key, scancode, mods, down, repeat));
    }

    /** The latch is set before the event is pushed; afterwards all latches agree with the log. */
    method PushKey(e: Event)
      requires e.Key? && Latched(e.key) && (Latches(e.key) ==> keys[e.key] == e.down)
      requires Sound() && FocusKnown() && e.window in focused
      modifies this`queue, this`log, this`serials
      ensures Valid() && log == old(log) + [e] && queue == old(queue) + [e]
    {
      Push(log, e);
      PushEvent(e);
    }

    /** A change of focus; a blur releases every held key first and forgets the modifiers. */
    method EmitFocus(w: Id, focus: bool)
      requires Valid() && w in focused
      modifies this`mods, this`queue, this`focused, this`log, this`serials, keys
      ensures Valid() && focused == old(focused)[w := focus]
      ensures log == old(log) + FocusEvents(old(focused)[w], focus, old(keys[..]), w, old(mods))
      ensures queue == old(queue) + FocusEvents(old(focused)[w], focus, old(keys[..]), w, old(mods))
      ensures old(focused)[w] && !focus ==> mods == 0 && forall key | 0 <= key < KEY_COUNT :: !keys[key]
      ensures !(old(focused)[w] && !focus) ==> mods == old(mods) && keys[..] == old(keys[..])
    {
      if focused[w] == focus {
        return;
      }
      if !focus {
        ReleaseAll(w);
        mods := 0;
      }
      PushFocus(w, focus);
    }

    method PushFocus(w: Id, focus: bool)
      requires Valid() && w in focused && focused[w] != focus && (!focus ==> NothingHeld(log))
      modifies this`queue, this`focused, this`log, this`serials
      ensures Valid() && focused == old(focused)[w := focus]
      ensures log == old(log) + [FocusEvent(w, focus)] && queue == old(queue) + [FocusEvent(w, focus)]
    {
      Push(log, FocusEvent(w, focus));
      PushEvent(FocusEvent(w, focus));
      focused := focused[w := focus];
      assert focused.Keys == old(focused).Keys;
    }

    method ReleaseAll(w: Id)
      requires Valid() && w in focused
      modifies this`mods, this`queue, this`log, this`serials, keys
      ensures Valid() && mods == old(mods)
      ensures log == old(log) + Releases(old(keys[..]), KEY_COUNT, w, mods)
      ensures queue == old(queue) + Releases(old(keys[..]), KEY_COUNT, w, mods)
      ensures NothingHeld(log) && forall key | 0 <= key < KEY_COUNT :: !keys[key]
    {
      ghost var was := keys[..];
      for i := 0 to KEY_COUNT
        invariant Valid() && mods == old(mods)
        invariant log == old(log) + Releases(was, i, w, mods)
        invariant queue == old(queue) + Releases(was, i, w, mods)
        invariant keys.Length == |was| == KEY_COUNT
        invariant forall key | 0 <= key < KEY_COUNT :: keys[key] == (key >= i && was[key])
      {
        ReleasesNext(old(log), was, i, w, mods);
        ReleasesNext(old(queue), was, i, w, mods);
        ReleaseIfHeld(w, i);
      }
    }

    method ReleaseIfHeld(w: Id, i: nat)
      requires Valid() && w in focused && i < KEY_COUNT
      modifies this`mods, this`queue, this`log, this`serials, keys
      ensures Valid() && mods == old(mods) && keys[..] == old(keys[..])[i := false]
      ensures log == old(log) + if old(keys[i]) then [Key(w, i, 0, mods, false, false)] else []
      ensures queue == old(queue) + if old(keys[i]) then [Key(w, i, 0, mods, false, false)] else []
    {
      if keys[i] {
        ReleaseKey(w, i);
      }
    }

    method ReleaseKey(w: Id, i: nat)
      requires Valid() && w in focused && i < KEY_COUNT && keys[i]
      modifies this`mods, this`queue, this`log, this`serials, keys
      ensures Valid() && mods == old(mods) && keys[..] == old(keys[..])[i := false]
      ensures log == old(log) + [Key(w, i, 0, mods, false, false)]
      ensures queue == old(queue) + [Key(w, i, 0, mods, false, false)]
    {
      keys[i] := false;
      EmitKey(w, i, 0, mods, false, false);
    }

    /** Events come out in the order they were pushed, and never for a window that is gone. */
    method Pop() returns (ok: bool, e: Event)
      requires Valid()
      modifies this`queue, this`sent, this`serials
      ensures Valid() && log == old(log) && ok == (old(queue) != [])
      ensures ok ==> e == old(queue)[0] && queue == old(queue)[1..] && e.window in focused
      ensures ok ==> sent == old(sent) + [old(serials)[0]] && old(serials)[0] < |log| && log[old(serials)[0]] == e
      ensures !ok ==> queue == old(queue)
    {
      ok, e := false, Other(0, 0);
      if queue == [] {
        return;
      }
      AccountPop(log, sent, serials, queue, focused.Keys);
      ok, e := true, queue[0];
      queue, sent, serials := queue[1..], sent + [serials[0]], serials[1..];
    }

    /** Destroying a window drops its queued events; nothing of it is delivered afterwards. */
    method Destroy(w: Id)
      requires Valid()
      modifies this`queue, this`focused, this`serials
      ensures Valid() && log == old(log) && focused == old(focused) - {w}
      ensures queue == if w in old(focused) then Without(old(queue), w) else old(queue)
      ensures forall i | 0 <= i < |queue| :: queue[i].window != w
    {
      if w !in focused {
        assert focused - {w} == focused;
        return;
      }
      AccountPurge(log, sent, serials, queue, focused.Keys, w);
      serials := KeptSerials(queue, serials, w);
      queue := Without(queue, w);
      focused := focused - {w};
      assert focused.Keys == old(focused).Keys - {w};
    }
  }
}
