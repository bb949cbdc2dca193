/** The codepoint map of a tileset: a direct table below 256 and a sorted vector above it. */
module TilesetMap {
  import opened Bits
  import opened Division

  import opened Cp437

  datatype Entry = Entry(codepoint: nat, index: int)
  datatype Layout = SheetCp437 | SheetTcod | SheetSequential

  // ---------------------------------------------------------------- the sorted vector

  ghost predicate Sorted(s: seq<Entry>) {
    forall i, j | 0 <= i < j < |s| :: s[i].codepoint < s[j].codepoint
  }

  /** Everything before `at` is below the codepoint, everything from it on is not. */
  ghost predicate Divides(s: seq<Entry>, at: nat, codepoint: nat) {
    at <= |s| &&
    (forall i | 0 <= i < |s| :: s[i].codepoint < codepoint <==> i < at)
  }

  method LowerBound(s: seq<Entry>, codepoint: nat) returns (at: nat)
    requires Sorted(s)
    ensures Divides(s, at, codepoint)
  {
    at := 0;
    var length: nat := |s|;
    while length > 0
      invariant at + length <= |s|
      invariant forall i | 0 <= i < at :: s[i].codepoint < codepoint
      invariant forall i | at + length <= i < |s| :: s[i].codepoint >= codepoint
    {
      var half := length / 2;
      if s[at + half].codepoint < codepoint {
        at := at + half + 1;
        length := length - half - 1;
      } else {
        length := half;
      }
    }
  }

  ghost function SparseView(s: seq<Entry>): map<nat, int> {
    if s == [] then map[] else SparseView(s[..|s| - 1])[s[|s| - 1].codepoint := s[|s| - 1].index]
  }

  ghost function DirectView(direct: seq<int>): map<nat, int> {
    map c: nat | c < |direct| && direct[c] >= 0 :: direct[c]
  }

  /** The finite map the two tables stand for. */
  ghost function View(direct: seq<int>, sparse: seq<Entry>): map<nat, int> {
    DirectView(direct) + SparseView(sparse)
  }

  lemma {:induction false} SparseHas(s: seq<Entry>, at: nat, codepoint: nat)
    requires Sorted(s) && Divides(s, at, codepoint)
    ensures codepoint in SparseView(s) <==> at < |s| && s[at].codepoint == codepoint
    ensures codepoint in SparseView(s) ==> SparseView(s)[codepoint] == s[at].index
    decreases |s|
  {
    if s != [] {
      var last := |s| - 1;
      SparseHas(s[..last], if at < |s| then at else last, codepoint);
    }
  }

  lemma {:induction false} SparseReplace(s: seq<Entry>, at: nat, e: Entry)
    requires at < |s| && s[at].codepoint == e.codepoint && forall i | at < i < |s| :: s[i].codepoint != e.codepoint
    ensures SparseView(s[at := e]) == SparseView(s)[e.codepoint := e.index]
    decreases |s|
  {
    var last := |s| - 1;
    if at == last {
      assert s[at := e][..last] == s[..last];
    } else {
      assert s[at := e][..last] == s[..last][at := e];
      SparseReplace(s[..last], at, e);
    }
  }

  function Inserted(s: seq<Entry>, at: nat, e: Entry): seq<Entry>
    requires at <= |s|
  {
    s[..at] + [e] + s[at..]
  }

  lemma {:induction false} SparseInsert(s: seq<Entry>, at: nat, e: Entry)
    requires at <= |s| && forall i | at <= i < |s| :: s[i].codepoint != e.codepoint
    ensures SparseView(Inserted(s, at, e)) == SparseView(s)[e.codepoint := e.index]
    decreases |s|
  {
    var t, last := Inserted(s, at, e), |s| - 1;
    if at == |s| {
      assert t[..|t| - 1] == s;
    } else {
      assert t[..|t| - 1] == Inserted(s[..last], at, e);
      SparseInsert(s[..last], at, e);
    }
  }

  /** Strictly sorted, above the direct table, and every index a tile of the sheet. */
  ghost predicate SparseGood(s: seq<Entry>, count: nat) {
    Sorted(s) && forall i | 0 <= i < |s| :: s[i].codepoint >= 256 && 0 <= s[i].index < count
  }

  /** An entry for the codepoint is overwritten in place, a new one goes in before the first not below it. */
  function WithEntry(s: seq<Entry>, at: nat, e: Entry): seq<Entry>
    requires at <= |s|
  {
    if at < |s| && s[at].codepoint == e.codepoint then s[at := e] else Inserted(s, at, e)
  }

  lemma SetGood(s: seq<Entry>, at: nat, e: Entry, count: nat)
    requires SparseGood(s, count) && Divides(s, at, e.codepoint) && e.codepoint >= 256 && 0 <= e.index < count
    ensures SparseGood(WithEntry(s, at, e), count)
  {
    if at == |s| || s[at].codepoint != e.codepoint {
      var t := Inserted(s, at, e);
      forall i | 0 <= i < |t|
        ensures t[i].codepoint >= 256 && 0 <= t[i].index < count
      {
        InsertedAt(s, at, e, i);
      }
      forall i, j | 0 <= i < j < |t|
        ensures t[i].codepoint < t[j].codepoint
      {
        InsertedAt(s, at, e, i);
        InsertedAt(s, at, e, j);
      }
    }
  }

  lemma SetView(direct: seq<int>, s: seq<Entry>, at: nat, e: Entry)
    requires Sorted(s) && Divides(s, at, e.codepoint)
    ensures View(direct, WithEntry(s, at, e)) == View(direct, s)[e.codepoint := e.index]
  {
    if at < |s| && s[at].codepoint == e.codepoint {
      SparseReplace(s, at, e);
    } else {
      SparseInsert(s, at, e);
    }
    UpdateAfter(DirectView(direct), SparseView(s), e.codepoint, e.index);
  }

  lemma UpdateAfter(a: map<nat, int>, b: map<nat, int>, k: nat, v: int)
    ensures a + b[k := v] == (a + b)[k := v]
  {
  }

  lemma InsertedAt(s: seq<Entry>, at: nat, e: Entry, i: nat)
    requires at <= |s| && i <= |s|
    ensures Inserted(s, at, e)[i] == if i < at then s[i] else if i == at then e else s[i - 1]
  {
  }

  lemma {:induction false} SparseLow(s: seq<Entry>, codepoint: nat)
    requires forall i | 0 <= i < |s| :: s[i].codepoint != codepoint
    ensures codepoint !in SparseView(s)
    decreases |s|
  {
    if s != [] {
      SparseLow(s[..|s| - 1], codepoint);
    }
  }

  // ---------------------------------------------------------------- ranges

  function Nth(first: uint32, n: nat): uint32 {
    if n == 0 then first else Successor(Nth(first, n - 1))
  }

  lemma {:induction false} NthOffset(first: uint32, n: nat)
    requires n < WORD
    ensures Offset(first, Nth(first, n)) == n
  {
    if n > 0 {
      NthOffset(first, n - 1);
    }
  }

  /** The view after mapping n codepoints from `first` to consecutive tiles. */
  ghost function MapMany(view: map<nat, int>, first: uint32, firstIndex: int, n: nat): map<nat, int> {
    if n == 0 then view
    else MapMany(view, first, firstIndex, n - 1)[Nth(first, n - 1) := firstIndex + n - 1]
  }

  lemma MapManyNext(view: map<nat, int>, first: uint32, firstIndex: int, n: nat)
    ensures MapMany(view, first, firstIndex, n + 1)
            == MapMany(view, first, firstIndex, n)[Nth(first, n) := firstIndex + n]
  {
  }

  /** How far along the range a codepoint lies. */
  function Offset(first: uint32, codepoint: uint32): nat {
    if codepoint >= first then codepoint - first else codepoint - first + WORD
  }

  lemma {:induction false} RangeMeaning(view: map<nat, int>, first: uint32, firstIndex: int, n: nat, c: uint32)
    requires n <= WORD
    ensures var m := MapMany(view, first, firstIndex, n);
            if Offset(first, c) < n then c in m && m[c] == firstIndex + Offset(first, c)
            else (c in m <==> c in view) && (c in view ==> m[c] == view[c])
  {
    if n > 0 {
      NthOffset(first, n - 1);
      RangeMeaning(view, first, firstIndex, n - 1, c);
    }
  }

  /** How many codepoints a range call maps before it stops. */
  function Mapped(first: uint32, last: uint32, firstIndex: int, count: nat): nat {
    if last < first || firstIndex < 0 || firstIndex >= count then 0
    else if last == WORD - 1 || count - firstIndex <= last - first then count - firstIndex
    else last - first + 1
  }

  /** The range runs off the end of the sheet. */
  predicate Overruns(first: uint32, last: uint32, firstIndex: int, count: nat) {
    first <= last && 0 <= firstIndex < count && (last == WORD - 1 || firstIndex + (last - first) >= count)
  }

  /**
   A range call that succeeds maps exactly the codepoints of the range, in order; one that starts outside the sheet or
   ends before it starts changes nothing; one that runs off the sheet maps as many codepoints as there are tiles left.
   */
  lemma MappedMeaning(view: map<nat, int>, first: uint32, last: uint32, firstIndex: int, count: nat, c: uint32)
    requires count <= WORD
    ensures var m := MapMany(view, first, firstIndex, Mapped(first, last, firstIndex, count));
            var maps := if Overruns(first, last, firstIndex, count) then Offset(first, c) < count - firstIndex
                        else 0 <= firstIndex < count && first <= c <= last;
            if maps then c in m && m[c] == firstIndex + Offset(first, c)
            else (c in m <==> c in view) && (c in view ==> m[c] == view[c])
  {
    RangeMeaning(view, first, firstIndex, Mapped(first, last, firstIndex, count), c);
  }

  /** After `n` codepoints of a range. */
  ghost predicate Midway(first: uint32, last: uint32, firstIndex: int, count: nat, codepoint: uint32, index: int,
                         n: nat) {
    first <= last && index == firstIndex + n && codepoint == Nth(first, n) &&
    (n > 0 ==> 0 <= firstIndex && index <= count) &&
    (last < WORD - 1 ==> n <= last - first + 1 && codepoint == first + n)
  }

  lemma MidwayNext(first: uint32, last: uint32, firstIndex: int, count: nat, codepoint: uint32, index: int, n: nat)
    requires Midway(first, last, firstIndex, count, codepoint, index, n) && codepoint <= last && 0 <= index < count
    ensures Midway(first, last, firstIndex, count, Successor(codepoint), index + 1, n + 1)
  {
  }

  /** Where the loop over a range stops: after the last codepoint, or at the first tile outside the sheet. */
  lemma RangeEnds(first: uint32, last: uint32, firstIndex: int, count: nat, codepoint: uint32, index: int, n: nat)
    requires Midway(first, last, firstIndex, count, codepoint, index, n)
    requires codepoint > last || index < 0 || index >= count
    ensures n == Mapped(first, last, firstIndex, count)
    ensures codepoint > last <==> last < WORD - 1 && 0 <= firstIndex && firstIndex + (last - first) < count
  {
  }

  // ---------------------------------------------------------------- seeding

  /** The TCOD layout counts column by column. */
  function TcodIndex(i: nat, columns: nat, rows: nat): nat
    requires rows > 0
  {
    (i % rows) * columns + i / rows
  }

  /** The index stands in column i / rows and row i % rows, so the guard in the seeding never fires. */
  lemma TcodIndexPlace(i: nat, columns: nat, rows: nat)
    requires rows > 0 && i < columns * rows
    ensures i / rows < columns && TcodIndex(i, columns, rows) < columns * rows
    ensures TcodIndex(i, columns, rows) / columns == i % rows && TcodIndex(i, columns, rows) % columns == i / rows
  {
    var q, r := i / rows, i % rows;
    RowBelow(q, r, rows, columns);
    QuotientIs(r, q, columns);
    RowBelow(r, q, columns, rows);
  }

  lemma TcodIndexOf(column: nat, row: nat, columns: nat, rows: nat)
    requires column < columns && row < rows
    ensures column * rows + row < columns * rows
    ensures TcodIndex(column * rows + row, columns, rows) == row * columns + column
  {
    QuotientIs(column, row, rows);
    RowBelow(column, row, rows, columns);
  }

  /** Reading down the columns visits every tile exactly once. */
  lemma TcodPermutes(columns: nat, rows: nat, tile: nat) returns (i: nat)
    requires rows > 0 && tile < columns * rows
    ensures i < columns * rows && TcodIndex(i, columns, rows) == tile
    ensures forall j: nat | j < columns * rows && TcodIndex(j, columns, rows) == tile :: j == i
  {
    var column, row := tile % columns, tile / columns;
    RowBelow(row, column, columns, rows);
    TcodIndexOf(column, row, columns, rows);
    i := column * rows + row;
    forall j: nat | j < columns * rows && TcodIndex(j, columns, rows) == tile
      ensures j == i
    {
      TcodSlotOf(columns, rows, tile, j);
    }
  }

  lemma TcodSlotOf(columns: nat, rows: nat, tile: nat, j: nat)
    requires rows > 0 && j < columns * rows && TcodIndex(j, columns, rows) == tile
    ensures columns > 0 && j == tile % columns * rows + tile / columns
  {
    TcodIndexPlace(j, columns, rows);
  }

  /** The tiles a layout gives to the CP437 slots. */
  function SheetTiles(layout: Layout, columns: nat, rows: nat): (tiles: seq<nat>)
    ensures |tiles| == Min(256, columns * rows)
  {
    assert columns * rows > 0 ==> rows > 0;
    seq(Min(256, columns * rows), i requires 0 <= i && rows > 0 =>
        if layout == SheetTcod then TcodIndex(i, columns, rows) else i)
  }

  lemma TcodTile(columns: nat, rows: nat, i: nat)
    requires i < 256 && i < columns * rows
    ensures rows > 0 && SheetTiles(SheetTcod, columns, rows)[i] == TcodIndex(i, columns, rows) < columns * rows
  {
    assert rows > 0;
    TcodIndexPlace(i, columns, rows);
  }

  /** The codepoint a layout gives to a slot. */
  function SlotCodepoint(layout: Layout, slot: nat): nat {
    if layout == SheetSequential then slot else Codepoint(slot)
  }

  /** The map after seeding the first slots with these tiles. */
  ghost function Seeded(layout: Layout, tiles: seq<nat>): map<nat, int> {
    if tiles == [] then map[]
    else Seeded(layout, tiles[..|tiles| - 1])[SlotCodepoint(layout, |tiles| - 1) := tiles[|tiles| - 1]]
  }

  lemma SlotsDiffer(layout: Layout, a: nat, b: nat)
    requires a < 256 && b < 256 && a != b
    ensures SlotCodepoint(layout, a) != SlotCodepoint(layout, b)
  {
    SlotOfCodepoint(a);
    SlotOfCodepoint(b);
  }

  /** No slot's codepoint hides another's: each looks up its own tile, and no slot beyond the sheet is mapped. */
  lemma {:induction false} SeededLookup(layout: Layout, tiles: seq<nat>, slot: nat)
    requires |tiles| <= 256 && slot < 256
    ensures SlotCodepoint(layout, slot) in Seeded(layout, tiles) <==> slot < |tiles|
    ensures slot < |tiles| ==> Seeded(layout, tiles)[SlotCodepoint(layout, slot)] == tiles[slot]
    decreases |tiles|
  {
    if tiles != [] {
      var last := |tiles| - 1;
      SeededLookup(layout, tiles[..last], slot);
      if slot != last {
        SlotsDiffer(layout, slot, last);
      }
    }
  }

  /** A tile of an index, by its row and column in the sheet. */
  predicate Stands(tile: int, row: nat, column: nat, columns: nat) {
    tile == row * columns + column && column < columns
  }

  /** The map shows tile `tile` for a codepoint. */
  predicate ShowsTile(m: map<nat, int>, codepoint: nat, tile: int) {
    codepoint in m && m[codepoint] == tile
  }

  /**
   What a new tileset shows for slot `i` of its sheet: in CP437 order tile i for the slot's codepoint, in TCOD order
   the tile in row i mod rows of column i / rows, and without an order tile i for codepoint i.
   */
  ghost predicate SlotSeeded(m: map<nat, int>, layout: Layout, columns: nat, rows: nat, i: nat)
    requires rows > 0
  {
    match layout
    case SheetCp437 => ShowsTile(m, Codepoint(i), i)
    case SheetTcod => exists tile :: ShowsTile(m, Codepoint(i), tile) && Stands(tile, i % rows, i / rows, columns)
    case SheetSequential => ShowsTile(m, i, i)
  }

  lemma SeedMeaning(layout: Layout, columns: nat, rows: nat, i: nat)
    requires rows > 0 && i < 256 && i < columns * rows
    ensures SlotSeeded(Seeded(layout, SheetTiles(layout, columns, rows)), layout, columns, rows, i)
  {
    var tiles := SheetTiles(layout, columns, rows);
    SeededLookup(layout, tiles, i);
    if layout == SheetTcod {
      TcodTile(columns, rows, i);
      TcodIndexPlace(i, columns, rows);
      assert ShowsTile(Seeded(layout, tiles), Codepoint(i), tiles[i]);
    }
  }

  /** Nothing else is mapped. */
  lemma {:induction false} SeededOnly(layout: Layout, tiles: seq<nat>, codepoint: nat)
    requires codepoint in Seeded(layout, tiles)
    ensures exists i :: 0 <= i < |tiles| && codepoint == SlotCodepoint(layout, i)
    decreases |tiles|
  {
    var last := |tiles| - 1;
    if codepoint != SlotCodepoint(layout, last) {
      SeededOnly(layout, tiles[..last], codepoint);
    }
  }

  lemma SeedNext(layout: Layout, tiles: seq<nat>, i: nat)
    requires i < |tiles|
    ensures Seeded(layout, tiles[..i + 1]) == Seeded(layout, tiles[..i])[SlotCodepoint(layout, i) := tiles[i]]
  {
    assert tiles[..i + 1][..i] == tiles[..i];
  }

  // ---------------------------------------------------------------- the tileset

  class Tileset {
    const columns: nat
    const rows: nat
    const count: nat
    const direct: array<int>
    var sparse: seq<Entry>

    ghost predicate Valid()
      reads this, direct
    {
      count == columns * rows && direct.Length == 256 && SparseGood(sparse, count) &&
      forall c | 0 <= c < 256 :: -1 <= direct[c] < count
    }

    ghost function Codepoints(): map<nat, int>
      reads this, direct
    {
      View(direct[..], sparse)
    }

    /** An empty map, then the first slots of the sheet's declared ordering. */
    constructor (columns: nat, rows: nat, layout: Layout)
      ensures Valid() && fresh(direct) && this.columns == columns && this.rows == rows
      ensures Codepoints() == Seeded(layout, SheetTiles(layout, columns, rows))
    {
      this.columns, this.rows, count := columns, rows, columns * rows;
      direct := new int[256](_ => -1);
      sparse := [];
      new;
      assert DirectView(direct[..]) == map[];
      match layout {
        case SheetCp437 => SeedCp437();
        case SheetTcod => SeedTcod();
        case SheetSequential => SeedSequential();
      }
    }

    method SeedCp437()
      requires Valid() && Codepoints() == map[]
      modifies this, direct
      ensures Valid() && Codepoints() == Seeded(SheetCp437, SheetTiles(SheetCp437, columns, rows))
    {
      ghost var tiles := SheetTiles(SheetCp437, columns, rows);
      for i := 0 to Min(256, count)
        invariant Valid() && Codepoints() == Seeded(SheetCp437, tiles[..i])
      {
        SeedNext(SheetCp437, tiles, i);
        CodepointSmall(i);
        var _ := Map(Codepoint(i), i);
      }
      assert tiles[..Min(256, count)] == tiles;
      for i := 32 to 127
        invariant Valid() && Codepoints() == Seeded(SheetCp437, tiles)
      {
        AsciiIsItself(i);
        SeededLookup(SheetCp437, tiles, i);
        DirectHas(direct[..], sparse, i);
        if direct[i] < 0 && i < count {
          assert false;
        }
      }
    }

    method SeedTcod()
      requires Valid() && Codepoints() == map[]
      modifies this, direct
      ensures Valid() && Codepoints() == Seeded(SheetTcod, SheetTiles(SheetTcod, columns, rows))
    {
      ghost var tiles := SheetTiles(SheetTcod, columns, rows);
      for i := 0 to Min(256, count)
        invariant Valid() && Codepoints() == Seeded(SheetTcod, tiles[..i])
      {
        TcodTile(columns, rows, i);
        var index := TcodIndex(i, columns, rows);
        SeedNext(SheetTcod, tiles, i);
        CodepointSmall(i);
        if index < count {
          var _ := Map(Codepoint(i), index);
        }
      }
      assert tiles[..Min(256, count)] == tiles;
    }

    method SeedSequential()
      requires Valid() && Codepoints() == map[]
      modifies direct
      ensures Valid() && Codepoints() == Seeded(SheetSequential, SheetTiles(SheetSequential, columns, rows))
    {
      ghost var tiles := SheetTiles(SheetSequential, columns, rows);
      for i := 0 to Min(256, count)
        invariant Valid() && Codepoints() == Seeded(SheetSequential, tiles[..i])
      {
        SeedNext(SheetSequential, tiles, i);
        SetDirect(i, i);
      }
      assert tiles[..Min(256, count)] == tiles;
    }

    method SetDirect(codepoint: nat, index: int)
      requires Valid() && codepoint < 256 && 0 <= index < count
      modifies direct
      ensures Valid() && Codepoints() == old(Codepoints())[codepoint := index]
    {
      ghost var was := direct[..];
      DirectSet(was, sparse, codepoint, index);
      direct[codepoint] := index;
      assert direct[..] == was[codepoint := index];
    }

    /** The tile drawn for a codepoint, or -1. */
    method IndexFor(codepoint: uint32) returns (index: int)
      requires Valid()
      ensures index == if codepoint in Codepoints() then Codepoints()[codepoint] else -1
      ensures -1 <= index < count
    {
      if codepoint < 256 {
        DirectHas(direct[..], sparse, codepoint);
        index := direct[codepoint];
        return if index >= 0 then index else -1;
      }
      var at := LowerBound(sparse, codepoint);
      SparseHas(sparse, at, codepoint);
      if at != |sparse| && sparse[at].codepoint == codepoint {
        return sparse[at].index;
      }
      return -1;
    }

    method SparseSet(codepoint: nat, index: int)
      requires Valid() && codepoint >= 256 && 0 <= index < count
      modifies this
      ensures Valid() && Codepoints() == old(Codepoints())[codepoint := index]
    {
      var at := LowerBound(sparse, codepoint);
      var e := Entry(codepoint, index);
      SetGood(sparse, at, e, count);
      SetView(direct[..], sparse, at, e);
      sparse := WithEntry(sparse, at, e);
    }

    method Map(codepoint: uint32, index: int) returns (ok: bool)
      requires Valid()
      modifies this, direct
      ensures Valid() && (ok <==> 0 <= index < count)
      ensures Codepoints() == if ok then old(Codepoints())[codepoint := index] else old(Codepoints())
    {
      if index < 0 || index >= count {
        return false;
      }
      if codepoint < 256 {
        SetDirect(codepoint, index);
        return true;
      }
      SparseSet(codepoint, index);
      return true;
    }

    /** Maps a range to consecutive tiles, up to the first tile outside the sheet. */
    method MapRange(first: uint32, last: uint32, firstIndex: int) returns (ok: bool)
      requires Valid()
      modifies this, direct
      ensures Valid()
      ensures ok <==> first <= last < WORD - 1 && 0 <= firstIndex && firstIndex + (last - first) < count
      ensures Codepoints() == MapMany(old(Codepoints()), first, firstIndex, Mapped(first, last, firstIndex, count))
    {
      if last < first {
        return false;
      }
      var codepoint: uint32, index := first, firstIndex;
      ghost var n: nat := 0;
      while codepoint <= last
        invariant Valid() && Midway(first, last, firstIndex, count, codepoint, index, n)
        invariant Codepoints() == MapMany(old(Codepoints()), first, firstIndex, n)
        decreases count - index
      {
        MapManyNext(old(Codepoints()), first, firstIndex, n);
        var mapped := Map(codepoint, index);
        if !mapped {
          RangeEnds(first, last, firstIndex, count, codepoint, index, n);
          return false;
        }
        MidwayNext(first, last, firstIndex, count, codepoint, index, n);
        codepoint, index, n := Successor(codepoint), index + 1, n + 1;
      }
      RangeEnds(first, last, firstIndex, count, codepoint, index, n);
      return true;
    }
  }

  lemma DirectSet(direct: seq<int>, sparse: seq<Entry>, codepoint: nat, index: int)
    requires codepoint < |direct| && index >= 0 && forall i | 0 <= i < |sparse| :: sparse[i].codepoint >= |direct|
    ensures View(direct[codepoint := index], sparse) == View(direct, sparse)[codepoint := index]
  {
    SparseLow(sparse, codepoint);
    assert DirectView(direct[codepoint := index]) == DirectView(direct)[codepoint := index];
  }

  /** The sorted vector never hides the direct table. */
  lemma DirectHas(direct: seq<int>, sparse: seq<Entry>, codepoint: nat)
    requires codepoint < |direct| && forall i | 0 <= i < |sparse| :: sparse[i].codepoint >= |direct|
    ensures codepoint in View(direct, sparse) <==> direct[codepoint] >= 0
    ensures codepoint in View(direct, sparse) ==> View(direct, sparse)[codepoint] == direct[codepoint]
  {
    SparseLow(sparse, codepoint);
  }
}
