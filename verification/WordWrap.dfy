/** `print_wrapped`: the layout it computes, what it draws, and why no layout is shorter. */
module WordWrap {
  import opened Bits
  import opened Options
  import opened Sequences
  import opened Utf8

  // ---------------------------------------------------------------- the text as items

  /** A run of bytes up to the next space, newline or end is a word of at least one glyph. */
  datatype Item = Newline | Space | Word(glyphs: seq<nat>)

  predicate Separates(b: byte) {
    b == 0x20 || b == 0x0A
  }

  function WordEnd(text: seq<byte>, i: nat): (r: nat)
    requires i <= |text|
    ensures i <= r <= |text|
    decreases |text| - i
  {
    if i == |text| || Separates(text[i]) then i else WordEnd(text, Next(text, i).1)
  }

  function WordGlyphs(text: seq<byte>, i: nat): seq<nat>
    requires i <= |text|
    decreases |text| - i
  {
    if i == |text| || Separates(text[i]) then [] else [Next(text, i).0] + WordGlyphs(text, Next(text, i).1)
  }

  function ItemAt(text: seq<byte>, i: nat): Item
    requires i < |text|
  {
    if text[i] == 0x0A then Newline else if text[i] == 0x20 then Space else Word(WordGlyphs(text, i))
  }

  function ItemEnd(text: seq<byte>, i: nat): (j: nat)
    requires i < |text|
    ensures i < j <= |text|
  {
    if Separates(text[i]) then i + 1 else WordEnd(text, i)
  }

  function Items(text: seq<byte>, i: nat): seq<Item>
    requires i <= |text|
    decreases |text| - i
  {
    if i == |text| then [] else [ItemAt(text, i)] + Items(text, ItemEnd(text, i))
  }

  // ---------------------------------------------------------------- the layout

  datatype Pos = Pos(row: nat, column: nat)

  datatype Placed = Placed(row: nat, column: nat, glyph: nat)

  /** Where the next glyph goes: a full row breaks a word. */
  function Wrap(p: Pos, width: nat): Pos {
    if p.column >= width then Pos(p.row + 1, 0) else p
  }

  /** Where a word of `n` glyphs starts. */
  function StartOf(p: Pos, n: nat, width: nat): Pos {
    if p.column > 0 && p.column + n > width then Pos(p.row + 1, 0) else p
  }

  function Glyphs(glyphs: seq<nat>, p: Pos, width: nat): seq<Placed> {
    if glyphs == [] then []
    else
      var w := Wrap(p, width);
      [Placed(w.row, w.column, glyphs[0])] + Glyphs(glyphs[1..], Pos(w.row, w.column + 1), width)
  }

  function After(n: nat, p: Pos, width: nat): Pos {
    if n == 0 then p else After(n - 1, Pos(Wrap(p, width).row, Wrap(p, width).column + 1), width)
  }

  function Advance(item: Item, p: Pos, width: nat): Pos {
    match item
    case Newline => Pos(p.row + 1, 0)
    case Space => if 0 < p.column < width then Pos(p.row, p.column + 1) else p
    case Word(glyphs) => After(|glyphs|, StartOf(p, |glyphs|, width), width)
  }

  function PlaceItem(item: Item, p: Pos, width: nat): seq<Placed> {
    match item
    case Newline => []
    case Space => []
    case Word(glyphs) => Glyphs(glyphs, StartOf(p, |glyphs|, width), width)
  }

  function Layout(items: seq<Item>, p: Pos, width: nat): seq<Placed> {
    if items == [] then [] else PlaceItem(items[0], p, width) + Layout(items[1..], Advance(items[0], p, width), width)
  }

  function End(items: seq<Item>, p: Pos, width: nat): Pos {
    if items == [] then p else End(items[1..], Advance(items[0], p, width), width)
  }

  const ORIGIN := Pos(0, 0)

  // ---------------------------------------------------------------- the console

  type Color = nat

  datatype Cell = Cell(glyph: nat, tileset: Option<nat>, fg: Color, bg: Color)

  lemma CellIndex(x: int, y: int, columns: nat, rows: nat)
    requires 0 <= x < columns && 0 <= y < rows
    ensures 0 <= y * columns + x < columns * rows
  {
    assert y * columns <= (rows - 1) * columns;
    assert (rows - 1) * columns == rows * columns - columns;
  }

  lemma RowBefore(y: int, y': int, columns: nat)
    requires y < y'
    ensures y * columns + columns <= y' * columns
  {
    var d := y' - y - 1;
    assert d * columns >= 0;
    assert y' * columns == (y + 1 + d) * columns == y * columns + columns + d * columns;
  }

  lemma CellsDiffer(x: int, y: int, x': int, y': int, columns: nat)
    requires 0 <= x < columns && 0 <= x' < columns && y * columns + x == y' * columns + x'
    ensures x == x' && y == y'
  {
    if y < y' {
      RowBefore(y, y', columns);
    } else if y' < y {
      RowBefore(y', y, columns);
    }
  }

  function PutAt(cells: seq<Cell>, columns: nat, rows: nat, x: int, y: int, cell: Cell): (r: seq<Cell>)
    requires |cells| == columns * rows
    ensures |r| == |cells|
  {
    if 0 <= x < columns && 0 <= y < rows then
      CellIndex(x, y, columns, rows);
      cells[y * columns + x := cell]
    else cells
  }

  /** Draws placed glyphs with their top left corner at (x, y), cut off below `height` rows. */
  function Draw(cells: seq<Cell>, columns: nat, rows: nat, x: int, y: int, height: int,
                ps: seq<Placed>, fg: Color, bg: Color): (r: seq<Cell>)
    requires |cells| == columns * rows
    ensures |r| == |cells|
  {
    if ps == [] then cells
    else
      var p := ps[|ps| - 1];
      var before := Draw(cells, columns, rows, x, y, height, ps[..|ps| - 1], fg, bg);
      if p.row < height then PutAt(before, columns, rows, x + p.column, y + p.row, Cell(p.glyph, None, fg, bg))
      else before
  }

  /** A height of zero or less measures instead of drawing. */
  function Drawn(cells: seq<Cell>, columns: nat, rows: nat, x: int, y: int, height: int,
                 ps: seq<Placed>, fg: Color, bg: Color): (r: seq<Cell>)
    requires |cells| == columns * rows
    ensures |r| == |cells|
  {
    if height <= 0 then cells else Draw(cells, columns, rows, x, y, height, ps, fg, bg)
  }

  class Console {
    const columns: nat
    const rows: nat
    const cells: array<Cell>

    ghost predicate Valid()
      reads this
    {
      cells.Length == columns * rows
    }

    constructor (columns: nat, rows: nat)
      requires columns >= 1 && rows >= 1
      ensures Valid() && fresh(cells) && this.columns == columns && this.rows == rows
      ensures forall i | 0 <= i < cells.Length :: cells[i] == Cell(0x20, None, 0xFFFFFF, 0)
    {
      this.columns := columns;
      this.rows := rows;
      assert columns * rows >= 0;
      cells := new Cell[columns * rows](_ => Cell(0x20, None, 0xFFFFFF, 0));
    }

    method Put(x: int, y: int, codepoint: nat, fg: Color, bg: Color)
      requires Valid()
      modifies cells
      ensures cells[..] == PutAt(old(cells[..]), columns, rows, x, y, Cell(codepoint, None, fg, bg))
    {
      if 0 <= x < columns && 0 <= y < rows {
        CellIndex(x, y, columns, rows);
        cells[y * columns + x] := Cell(codepoint, None, fg, bg);
      }
    }

    /** One glyph, on the next row when this one is full. */
    method PutGlyph(x: int, y: int, width: nat, height: int, fg: Color, bg: Color, codepoint: nat, at: Pos)
      returns (row: nat, column: nat)
      requires Valid()
      modifies cells
      ensures Pos(row, column) == Wrap(at, width)
      ensures cells[..] == Drawn(old(cells[..]), columns, rows, x, y, height, [Placed(row, column, codepoint)], fg, bg)
    {
      row, column := at.row, at.column;
      if column >= width {
        row := row + 1;
        column := 0;
      }
      if height > 0 && row < height {
        Put(x + column, y + row, codepoint, fg, bg);
      }
      DrawnOne(old(cells[..]), columns, rows, x, y, height, Placed(row, column, codepoint), fg, bg);
    }

    /** Draws a word glyph by glyph from `cursor` to `scan`; the row and column after it. */
    method PrintWord(x: int, y: int, width: nat, height: int, fg: Color, bg: Color, text: seq<byte>,
                     cursor: nat, scan: nat, from: Pos) returns (row: nat, column: nat)
      requires Valid() && width >= 1 && cursor <= |text| && scan == WordEnd(text, cursor)
      modifies cells
      ensures Pos(row, column) == After(|WordGlyphs(text, cursor)|, from, width)
      ensures cells[..] ==
                Drawn(old(cells[..]), columns, rows, x, y, height,
                      Glyphs(WordGlyphs(text, cursor), from, width), fg, bg)
    {
      row, column := from.row, from.column;
      var word := cursor;
      ghost var done, all := [], Glyphs(WordGlyphs(text, cursor), from, width);
      assert done + all == all;
      while word < scan
        invariant cursor <= word <= scan && scan == WordEnd(text, word)
        invariant After(|WordGlyphs(text, word)|, Pos(row, column), width) ==
                  After(|WordGlyphs(text, cursor)|, from, width)
        invariant all == done + Glyphs(WordGlyphs(text, word), Pos(row, column), width)
        invariant cells[..] == Drawn(old(cells[..]), columns, rows, x, y, height, done, fg, bg)
        decreases scan - word
      {
        GlyphStep(text, word, Pos(row, column), width);
        var codepoint, next := DecodeNext(text, word);
        row, column := PutGlyph(x, y, width, height, fg, bg, codepoint, Pos(row, column));
        ghost var p := Placed(row, column, codepoint);
        DrawnConcat(old(cells[..]), columns, rows, x, y, height, done, [p], fg, bg);
        ConcatAssoc(done, [p], Glyphs(WordGlyphs(text, next), Pos(row, column + 1), width));
        done := done + [p];
        column := column + 1;
        word := next;
      }
      assert WordGlyphs(text, word) == [];
      assert done + [] == done;
    }

    /** One word: on a fresh row if it does not fit the rest of this one. */
    method WrapWord(x: int, y: int, width: nat, height: int, fg: Color, bg: Color, text: seq<byte>, cursor: nat,
                    at: Pos)
      returns (scan: nat, row: nat, column: nat)
      requires Valid() && width >= 1 && cursor <= |text|
      modifies cells
      ensures scan == WordEnd(text, cursor)
      ensures Pos(row, column) == Advance(Word(WordGlyphs(text, cursor)), at, width)
      ensures cells[..] == Drawn(old(cells[..]), columns, rows, x, y, height,
                                     PlaceItem(Word(WordGlyphs(text, cursor)), at, width), fg, bg)
    {
      var length;
      scan, length := MeasureWord(text, cursor);
      row, column := at.row, at.column;
      if column > 0 && column + length > width {
        row := row + 1;
        column := 0;
      }
      row, column := PrintWord(x, y, width, height, fg, bg, text, cursor, scan, Pos(row, column));
    }

    /** The body of the wrapping loop: one newline, one space or one word. */
    method PrintItem(x: int, y: int, width: nat, height: int, fg: Color, bg: Color, text: seq<byte>, cursor: nat,
                     at: Pos)
      returns (next: nat, row: nat, column: nat)
      requires Valid() && width >= 1 && cursor < |text|
      modifies cells
      ensures next == ItemEnd(text, cursor) && Pos(row, column) == Advance(ItemAt(text, cursor), at, width)
      ensures cells[..] ==
                Drawn(old(cells[..]), columns, rows, x, y, height, PlaceItem(ItemAt(text, cursor), at, width), fg, bg)
    {
      row, column := at.row, at.column;
      if text[cursor] == 0x0A {
        next := cursor + 1;
        row := row + 1;
        column := 0;
      } else if text[cursor] == 0x20 {
        next := cursor + 1;
        if column > 0 && column < width {
          column := column + 1;
        }
      } else {
        next, row, column := WrapWord(x, y, width, height, fg, bg, text, cursor, at);
      }
    }

    /** Draws wrapped text and returns its row count; a height of zero or less only measures. */
    method PrintWrapped(x: int, y: int, width: int, height: int, fg: Color, bg: Color, utf8: Option<seq<byte>>)
      returns (r: int)
      requires Valid()
      modifies cells
      ensures r == if utf8.None? || width < 1 then 0 else End(Items(utf8.value, 0), ORIGIN, width).row + 1
      ensures cells[..] == if utf8.None? || width < 1 then old(cells[..])
                           else Drawn(old(cells[..]), columns, rows, x, y, height,
                                      Layout(Items(utf8.value, 0), ORIGIN, width), fg, bg)
    {
      if utf8.None? || width < 1 {
        return 0;
      }
      var text := utf8.value;
      var cursor: nat, row: nat, column: nat := 0, 0, 0;
      ghost var done, all := [], Layout(Items(text, 0), ORIGIN, width);
      assert done + all == all;
      while cursor < |text|
        invariant cursor <= |text|
        invariant End(Items(text, cursor), Pos(row, column), width) == End(Items(text, 0), ORIGIN, width)
        invariant all == done + Layout(Items(text, cursor), Pos(row, column), width)
        invariant cells[..] == Drawn(old(cells[..]), columns, rows, x, y, height, done, fg, bg)
      {
        ghost var placed := PlaceItem(ItemAt(text, cursor), Pos(row, column), width);
        ItemsStep(text, cursor, Pos(row, column), width);
        DrawnConcat(old(cells[..]), columns, rows, x, y, height, done, placed, fg, bg);
        cursor, row, column := PrintItem(x, y, width, height, fg, bg, text, cursor, Pos(row, column));
        ConcatAssoc(done, placed, Layout(Items(text, cursor), Pos(row, column), width));
        done := done + placed;
      }
      assert Items(text, cursor) == [] && done + [] == done;
      r := row + 1;
    }
  }

  /** The end of the word at `cursor`, and its length in codepoints. */
  method MeasureWord(text: seq<byte>, cursor: nat) returns (scan: nat, length: nat)
    requires cursor <= |text|
    ensures scan == WordEnd(text, cursor) && length == |WordGlyphs(text, cursor)|
  {
    scan, length := cursor, 0;
    while scan < |text| && !Separates(text[scan])
      invariant cursor <= scan <= |text| && WordEnd(text, scan) == WordEnd(text, cursor)
      invariant length + |WordGlyphs(text, scan)| == |WordGlyphs(text, cursor)|
    {
      var _, next := DecodeNext(text, scan);
      length := length + 1;
      scan := next;
    }
  }

  /** One item of the text, and the layout from it on. */
  lemma ItemsStep(text: seq<byte>, i: nat, p: Pos, width: nat)
    requires i < |text|
    ensures var j, item := ItemEnd(text, i), ItemAt(text, i);
            Items(text, i) == [item] + Items(text, j) &&
            Layout(Items(text, i), p, width) ==
              PlaceItem(item, p, width) + Layout(Items(text, j), Advance(item, p, width), width) &&
            End(Items(text, i), p, width) == End(Items(text, j), Advance(item, p, width), width)
  {
    assert Items(text, i) == [ItemAt(text, i)] + Items(text, ItemEnd(text, i));
    assert Items(text, i)[1..] == Items(text, ItemEnd(text, i));
  }

  lemma {:induction false} DrawConcat(cells: seq<Cell>, columns: nat, rows: nat, x: int, y: int, height: int,
                                      a: seq<Placed>, b: seq<Placed>, fg: Color, bg: Color)
    requires |cells| == columns * rows
    ensures Draw(cells, columns, rows, x, y, height, a + b, fg, bg)
            == Draw(Draw(cells, columns, rows, x, y, height, a, fg, bg), columns, rows, x, y, height, b, fg, bg)
    decreases |b|
  {
    if b == [] {
      assert a + b == a;
    } else {
      DrawConcat(cells, columns, rows, x, y, height, a, b[..|b| - 1], fg, bg);
      assert (a + b)[..|a + b| - 1] == a + b[..|b| - 1];
    }
  }

  lemma DrawnConcat(cells: seq<Cell>, columns: nat, rows: nat, x: int, y: int, height: int,
                    a: seq<Placed>, b: seq<Placed>, fg: Color, bg: Color)
    requires |cells| == columns * rows
    ensures Drawn(cells, columns, rows, x, y, height, a + b, fg, bg)
            == Drawn(Drawn(cells, columns, rows, x, y, height, a, fg, bg), columns, rows, x, y, height, b, fg, bg)
  {
    DrawConcat(cells, columns, rows, x, y, height, a, b, fg, bg);
  }

  lemma DrawnOne(cells: seq<Cell>, columns: nat, rows: nat, x: int, y: int, height: int, p: Placed, fg: Color,
                 bg: Color)
    requires |cells| == columns * rows
    ensures Drawn(cells, columns, rows, x, y, height, [p], fg, bg) ==
              if height > 0 && p.row < height
              then PutAt(cells, columns, rows, x + p.column, y + p.row, Cell(p.glyph, None, fg, bg)) else cells
  {
    var ps := [p];
    assert ps[..|ps| - 1] == [];
    assert Draw(cells, columns, rows, x, y, height, ps[..|ps| - 1], fg, bg) == cells;
  }

  /** One glyph of a word, and the rest of the word from it on. */
  lemma GlyphStep(text: seq<byte>, i: nat, p: Pos, width: nat)
    requires i < |text| && !Separates(text[i])
    ensures var (cp, next) := Next(text, i);
            var w := Wrap(p, width);
            var q := Pos(w.row, w.column + 1);
            WordEnd(text, i) == WordEnd(text, next) &&
            After(|WordGlyphs(text, i)|, p, width) == After(|WordGlyphs(text, next)|, q, width) &&
            Glyphs(WordGlyphs(text, i), p, width) ==
              [Placed(w.row, w.column, cp)] + Glyphs(WordGlyphs(text, next), q, width)
  {
    var (cp, next) := Next(text, i);
    assert WordGlyphs(text, i) == [cp] + WordGlyphs(text, next);
    assert WordGlyphs(text, i)[1..] == WordGlyphs(text, next);
  }
}
