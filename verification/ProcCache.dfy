/** The GL entry-point cache: open addressing that must agree with the resolver it memoises. */
module ProcCache {
  import opened Bits

  type Name = seq<byte>
  type Proc = int

  const SIZE: nat := 1024
  const NAME_MAX: nat := 63

  // ---------------------------------------------------------------- hashing

  function Xor(a: nat, b: nat): nat {
    if a == 0 then b else if b == 0 then a
    else 2 * Xor(a / 2, b / 2) + (if a % 2 != b % 2 then 1 else 0)
  }

  /** The bits of an exclusive or: one where the bits differ. */
  lemma {:induction false} XorBits(a: nat, b: nat, i: nat)
    ensures Shr(Xor(a, b), i) % 2 == 1 <==> Shr(a, i) % 2 != Shr(b, i) % 2
    decreases a + b, i
  {
    ShrNone(i);
    if a > 0 && b > 0 {
      if i > 0 {
        XorBits(a / 2, b / 2, i - 1);
        ShrHalf(a, i - 1);
        ShrHalf(b, i - 1);
        ShrHalf(Xor(a, b), i - 1);
      }
    }
  }

  lemma {:induction false} ShrNone(i: nat)
    ensures Shr(0, i) == 0
  {
    if i > 0 {
      ShrNone(i - 1);
    }
  }

  /** One byte of FNV-1a in 32-bit arithmetic. */
  function Mix(hash: nat, b: byte): nat {
    Xor(hash, b) * 16777619 % WORD
  }

  function Fnv1aFrom(s: Name, hash: nat): nat {
    if s == [] then hash else Fnv1aFrom(s[1..], Mix(hash, s[0]))
  }

  function Fnv1a(s: Name): nat {
    Fnv1aFrom(s, 2166136261)
  }

  method Hash(s: Name) returns (hash: nat)
    ensures hash == Fnv1a(s)
  {
    hash := 2166136261;
    for i := 0 to |s|
      invariant Fnv1aFrom(s[i..], hash) == Fnv1a(s)
    {
      assert s[i..][1..] == s[i + 1..];
      hash := Mix(hash, s[i]);
    }
  }

  /** Where the probe for a name starts. */
  function Home(s: Name): (r: nat)
    ensures r < SIZE
  {
    Fnv1a(s) % SIZE
  }

  // ---------------------------------------------------------------- the table

  datatype Entry = Entry(name: Name, proc: Proc, used: bool)

  /** The k-th slot probed from `home`, with wrap-around. */
  function Slot(home: nat, k: nat): (r: nat)
    ensures r < SIZE
  {
    (home + k) % SIZE
  }

  function UsedCount(t: seq<Entry>): nat {
    if t == [] then 0 else UsedCount(t[..|t| - 1]) + if t[|t| - 1].used then 1 else 0
  }

  /** A name is found by probing from its home over used slots only. */
  ghost predicate OnChain(t: seq<Entry>, name: Name, k: nat)
    requires |t| == SIZE
  {
    k < SIZE && t[Slot(Home(name), k)].used && t[Slot(Home(name), k)].name == name &&
    forall j | 0 <= j < k :: t[Slot(Home(name), j)].used
  }

  ghost predicate EntryGood(t: seq<Entry>, resolve: Name -> Proc, i: nat)
    requires |t| == SIZE && i < SIZE
  {
    t[i].used ==>
      t[i].proc == resolve(t[i].name) && 1 <= |t[i].name| <= NAME_MAX &&
      exists k :: OnChain(t, t[i].name, k) && Slot(Home(t[i].name), k) == i
  }

  ghost predicate NoDuplicates(t: seq<Entry>) {
    forall i, j | 0 <= i < j < |t| && t[i].used && t[j].used :: t[i].name != t[j].name
  }

  /** The cached names and what they were resolved to. */
  ghost function View(t: seq<Entry>): map<Name, Proc> {
    if t == [] then map[]
    else if t[|t| - 1].used then View(t[..|t| - 1])[t[|t| - 1].name := t[|t| - 1].proc]
    else View(t[..|t| - 1])
  }

  lemma {:induction false} ViewHas(t: seq<Entry>, name: Name)
    ensures name in View(t) <==> exists i :: 0 <= i < |t| && t[i].used && t[i].name == name
    decreases |t|
  {
    if t != [] {
      var before := t[..|t| - 1];
      ViewHas(before, name);
      if exists i :: 0 <= i < |before| && before[i].used && before[i].name == name {
        var i :| 0 <= i < |before| && before[i].used && before[i].name == name;
        assert t[i].used && t[i].name == name;
      }
      if exists i :: 0 <= i < |t| && t[i].used && t[i].name == name {
        var i :| 0 <= i < |t| && t[i].used && t[i].name == name;
        assert i < |before| ==> before[i].used && before[i].name == name;
      }
    }
  }

  lemma {:induction false} ViewUpdate(t: seq<Entry>, i: nat, e: Entry)
    requires i < |t| && !t[i].used && e.used && forall j | 0 <= j < |t| && t[j].used :: t[j].name != e.name
    ensures View(t[i := e]) == View(t)[e.name := e.proc]
    decreases |t|
  {
    var last := |t| - 1;
    if i == last {
      assert t[i := e][..last] == t[..last];
    } else {
      assert t[i := e][..last] == t[..last][i := e];
      ViewUpdate(t[..last], i, e);
    }
  }

  lemma {:induction false} CountUpdate(t: seq<Entry>, i: nat, e: Entry)
    requires i < |t| && !t[i].used && e.used
    ensures UsedCount(t[i := e]) == UsedCount(t) + 1
    decreases |t|
  {
    var last := |t| - 1;
    if i == last {
      assert t[i := e][..last] == t[..last];
    } else {
      assert t[i := e][..last] == t[..last][i := e];
      CountUpdate(t[..last], i, e);
    }
  }

  lemma {:induction false} CountAll(t: seq<Entry>)
    ensures UsedCount(t) <= |t|
    ensures UsedCount(t) == |t| <==> forall i | 0 <= i < |t| :: t[i].used
    decreases |t|
  {
    if t != [] {
      CountAll(t[..|t| - 1]);
      assert forall i | 0 <= i < |t| - 1 :: t[..|t| - 1][i] == t[i];
    }
  }

  lemma {:induction false} CountNone(t: seq<Entry>)
    requires forall i | 0 <= i < |t| :: !t[i].used
    ensures UsedCount(t) == 0 && View(t) == map[]
    decreases |t|
  {
    if t != [] {
      CountNone(t[..|t| - 1]);
    }
  }

  /** From any home, every slot is probed within SIZE steps. */
  lemma ProbeReaches(home: nat, i: nat)
    requires home < SIZE && i < SIZE
    ensures exists k :: 0 <= k < SIZE && Slot(home, k) == i
  {
    var k := if i >= home then i - home else i - home + SIZE;
    assert Slot(home, k) == i;
  }

  lemma ProbesDiffer(home: nat, j: nat, k: nat)
    requires home < SIZE && j < SIZE && k < SIZE && j != k
    ensures Slot(home, j) != Slot(home, k)
  {
  }

  class Cache {
    const entries: array<Entry>
    var used: nat

    /** The invariant; `resolve` is the platform's lookup, the same for every call. */
    ghost predicate Valid(resolve: Name -> Proc)
      reads this, entries
    {
      entries.Length == SIZE && used == UsedCount(entries[..]) && used < SIZE &&
      NoDuplicates(entries[..]) && forall i | 0 <= i < SIZE :: EntryGood(entries[..], resolve, i)
    }

    constructor (ghost resolve: Name -> Proc)
      ensures Valid(resolve) && View(entries[..]) == map[] && fresh(entries)
    {
      entries := new Entry[SIZE](_ => Entry([], 0, false));
      used := 0;
      new;
      CountNone(entries[..]);
    }

    method Clear(ghost resolve: Name -> Proc)
      requires entries.Length == SIZE
      modifies this, entries
      ensures Valid(resolve) && View(entries[..]) == map[]
    {
      for i := 0 to SIZE
        invariant forall j | 0 <= j < i :: !entries[j].used
      {
        entries[i] := Entry([], 0, false);
      }
      used := 0;
      CountNone(entries[..]);
    }

    /** Stores a name in the first unused slot of its probe. */
    method Store(name: Name, proc: Proc, probe: nat, i: nat, ghost resolve: Name -> Proc)
      requires Valid(resolve) && used + 1 < SIZE && 1 <= |name| <= NAME_MAX && proc == resolve(name)
      requires probe < SIZE && i == Slot(Home(name), probe) && !entries[i].used
      requires forall j | 0 <= j < probe :: entries[Slot(Home(name), j)].used
      requires forall j | 0 <= j < SIZE && entries[j].used :: entries[j].name != name
      modifies this, entries
      ensures Valid(resolve) && used == old(used) + 1
      ensures View(entries[..]) == View(old(entries[..]))[name := proc]
    {
      ghost var was := entries[..];
      ghost var e := Entry(name, proc, true);
      CountUpdate(was, i, e);
      ViewUpdate(was, i, e);
      entries[i] := Entry(name, proc, true);
      used := used + 1;
      assert entries[..] == was[i := e];
      forall n | 0 <= n < SIZE ensures EntryGood(entries[..], resolve, n) {
        assert EntryGood(was, resolve, n);
        StillGood(was, resolve, n, i, e, probe);
      }
    }

    /** The cached or freshly resolved entry point; `asked` tells whether the resolver was called. */
    method Get(name: Name, resolve: Name -> Proc) returns (r: Proc, asked: bool)
      requires Valid(resolve)
      modifies this, entries
      ensures Valid(resolve)
      ensures name == [] ==> r == 0 && !asked
      ensures name != [] ==> r == resolve(name) && (asked <==> name !in View(old(entries[..])))
      ensures View(entries[..]) ==
                if asked && |name| <= NAME_MAX && old(used) + 1 < SIZE
                then View(old(entries[..]))[name := resolve(name)] else View(old(entries[..]))
    {
      ViewHas(entries[..], name);
      if name == [] {
        return 0, false;
      }
      if |name| > NAME_MAX {
        forall i | 0 <= i < SIZE && entries[i].used ensures entries[i].name != name {
          assert EntryGood(entries[..], resolve, i);
        }
        return resolve(name), true;
      }
      var hash := Hash(name);
      var index := hash % SIZE;
      for probe := 0 to SIZE
        invariant entries[..] == old(entries[..]) && used == old(used)
        invariant forall j | 0 <= j < probe :: entries[Slot(index, j)].used && entries[Slot(index, j)].name != name
      {
        var i := (index + probe) % SIZE;
        if !entries[i].used {
          NotBeyond(entries[..], resolve, name, probe);
          if used + 1 >= SIZE {
            return resolve(name), true;
          }
          r := resolve(name);
          Store(name, r, probe, i, resolve);
          return r, true;
        }
        if entries[i].name == name {
          assert EntryGood(entries[..], resolve, i);
          assert name in View(entries[..]);
          return entries[i].proc, false;
        }
      }
      NeverFull(entries[..], index);
      assert false;
    }
  }

  /** An unused slot on the probe means the name is nowhere in the table. */
  lemma NotBeyond(t: seq<Entry>, resolve: Name -> Proc, name: Name, probe: nat)
    requires |t| == SIZE && probe < SIZE && !t[Slot(Home(name), probe)].used
    requires forall i | 0 <= i < SIZE :: EntryGood(t, resolve, i)
    requires forall j | 0 <= j < probe :: t[Slot(Home(name), j)].name != name
    ensures forall i | 0 <= i < SIZE && t[i].used :: t[i].name != name
  {
    forall i | 0 <= i < SIZE && t[i].used
      ensures t[i].name != name
    {
      assert EntryGood(t, resolve, i);
      var k: nat :| OnChain(t, t[i].name, k) && Slot(Home(t[i].name), k) == i;
      assert k < probe ==> t[Slot(Home(name), k)].name != name;
    }
  }

  /** With a free slot somewhere, every probe comes to one. */
  lemma NeverFull(t: seq<Entry>, home: nat)
    requires |t| == SIZE && home < SIZE && UsedCount(t) < SIZE
    ensures exists k :: 0 <= k < SIZE && !t[Slot(home, k)].used
  {
    CountAll(t);
    var i :| 0 <= i < SIZE && !t[i].used;
    ProbeReaches(home, i);
  }

  lemma StillGood(t: seq<Entry>, resolve: Name -> Proc, n: nat, i: nat, e: Entry, probe: nat)
    requires |t| == SIZE && n < SIZE && i < SIZE && EntryGood(t, resolve, n) && !t[i].used
    requires e.used && e.proc == resolve(e.name) && 1 <= |e.name| <= NAME_MAX
    requires probe < SIZE && i == Slot(Home(e.name), probe) &&
             forall j | 0 <= j < probe :: t[Slot(Home(e.name), j)].used
    ensures EntryGood(t[i := e], resolve, n)
  {
    var u := t[i := e];
    if n == i {
      forall j | 0 <= j < probe ensures u[Slot(Home(e.name), j)].used {
        ProbesDiffer(Home(e.name), j, probe);
      }
      assert OnChain(u, e.name, probe);
    } else if t[n].used {
      var k :| OnChain(t, t[n].name, k) && Slot(Home(t[n].name), k) == n;
      assert OnChain(u, t[n].name, k);
    }
  }

  datatype Call = Get(name: Name) | Clear

  /** What a loader without the cache would see. */
  function Uncached(call: Call, resolve: Name -> Proc): Proc {
    if call.Get? && call.name != [] then resolve(call.name) else 0
  }

  /** Any run of lookups and clears gives exactly the resolver's answers. */
  method Run(cache: Cache, calls: seq<Call>, resolve: Name -> Proc) returns (answers: seq<Proc>)
    requires cache.Valid(resolve)
    modifies cache, cache.entries
    ensures cache.Valid(resolve) && |answers| == |calls|
    ensures forall i | 0 <= i < |calls| :: answers[i] == Uncached(calls[i], resolve)
  {
    answers := [];
    for n := 0 to |calls|
      invariant cache.Valid(resolve) && |answers| == n
      invariant forall i | 0 <= i < n :: answers[i] == Uncached(calls[i], resolve)
    {
      var r := 0;
      match calls[n] {
        case Get(name) =>
          var asked;
          r, asked := cache.Get(name, resolve);
        case Clear => cache.Clear(resolve);
      }
      answers := answers + [r];
    }
  }
}
