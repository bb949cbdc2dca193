/** What the layout of `print_wrapped` guarantees: content, order, whole words, fewest rows. */
module WordWrapLaws {
  import opened Bits
  import opened Options
  import opened Sequences
  import opened Utf8
  import opened WordWrap

  // ---------------------------------------------------------------- reading order

  predicate Leq(p: Pos, q: Pos) {
    p.row < q.row || (p.row == q.row && p.column <= q.column)
  }

  predicate Lt(p: Pos, q: Pos) {
    p.row < q.row || (p.row == q.row && p.column < q.column)
  }

  function At(p: Placed): Pos {
    Pos(p.row, p.column)
  }

  /** Every glyph is in its columns, from `from` on and before `to`. */
  ghost predicate Within(ps: seq<Placed>, from: Pos, to: Pos, width: nat) {
    forall i | 0 <= i < |ps| :: ps[i].column < width && Leq(from, At(ps[i])) && Lt(At(ps[i]), to)
  }

  ghost predicate InReadingOrder(ps: seq<Placed>) {
    forall i, j | 0 <= i < j < |ps| :: Lt(At(ps[i]), At(ps[j]))
  }

  lemma JoinOrdered(a: seq<Placed>, b: seq<Placed>, from: Pos, middle: Pos, to: Pos, width: nat)
    requires Within(a, from, middle, width) && InReadingOrder(a) && Within(b, middle, to, width) && InReadingOrder(b)
    requires Leq(from, middle) && Leq(middle, to)
    ensures Within(a + b, from, to, width) && InReadingOrder(a + b)
  {
    var s := a + b;
    forall i, j | 0 <= i < j < |s|
      ensures Lt(At(s[i]), At(s[j]))
    {
      if i < |a| <= j {
        assert s[i] == a[i] && s[j] == b[j - |a|];
      }
    }
  }

  lemma {:induction false} GlyphsOrdered(glyphs: seq<nat>, p: Pos, width: nat)
    requires width >= 1
    ensures Leq(p, After(|glyphs|, p, width))
    ensures Within(Glyphs(glyphs, p, width), p, After(|glyphs|, p, width), width)
    ensures InReadingOrder(Glyphs(glyphs, p, width))
    decreases |glyphs|
  {
    if glyphs != [] {
      var w := Wrap(p, width);
      var q := Pos(w.row, w.column + 1);
      GlyphsOrdered(glyphs[1..], q, width);
      JoinOrdered([Placed(w.row, w.column, glyphs[0])], Glyphs(glyphs[1..], q, width), p, q,
                  After(|glyphs|, p, width), width);
    }
  }

  lemma ItemOrdered(item: Item, p: Pos, width: nat)
    requires width >= 1
    ensures Leq(p, Advance(item, p, width))
    ensures Within(PlaceItem(item, p, width), p, Advance(item, p, width), width) &&
            InReadingOrder(PlaceItem(item, p, width))
  {
    if item.Word? {
      GlyphsOrdered(item.glyphs, StartOf(p, |item.glyphs|, width), width);
    }
  }

  /** Positions strictly increase in reading order, and every column is inside the width. */
  lemma {:induction false} LayoutOrdered(items: seq<Item>, p: Pos, width: nat)
    requires width >= 1
    ensures Leq(p, End(items, p, width))
    ensures Within(Layout(items, p, width), p, End(items, p, width), width) && InReadingOrder(Layout(items, p, width))
    decreases |items|
  {
    if items != [] {
      var q := Advance(items[0], p, width);
      ItemOrdered(items[0], p, width);
      LayoutOrdered(items[1..], q, width);
      JoinOrdered(PlaceItem(items[0], p, width), Layout(items[1..], q, width), p, q, End(items, p, width), width);
    }
  }

  // ---------------------------------------------------------------- words

  lemma {:induction false} GlyphsInRow(glyphs: seq<nat>, p: Pos, width: nat, j: nat)
    requires p.column + |glyphs| <= width && j < |glyphs|
    ensures |Glyphs(glyphs, p, width)| == |glyphs|
    ensures Glyphs(glyphs, p, width)[j] == Placed(p.row, p.column + j, glyphs[j])
    decreases |glyphs|
  {
    if |glyphs| > 1 {
      GlyphsInRow(glyphs[1..], Pos(p.row, p.column + 1), width, if j == 0 then 0 else j - 1);
    }
  }

  /** A word that fits a row stays whole: one row, neighbouring columns. */
  lemma WordKeptWhole(glyphs: seq<nat>, p: Pos, width: nat, j: nat)
    requires j < |glyphs| <= width
    ensures var s := StartOf(p, |glyphs|, width);
            |PlaceItem(Word(glyphs), p, width)| == |glyphs| &&
            PlaceItem(Word(glyphs), p, width)[j] == Placed(s.row, s.column + j, glyphs[j])
  {
    GlyphsInRow(glyphs, StartOf(p, |glyphs|, width), width, j);
  }

  // ---------------------------------------------------------------- content

  function GlyphsOf(ps: seq<Placed>): seq<nat> {
    seq(|ps|, i requires 0 <= i < |ps| => ps[i].glyph)
  }

  function WordsOf(items: seq<Item>): seq<nat> {
    if items == [] then [] else (if items[0].Word? then items[0].glyphs else []) + WordsOf(items[1..])
  }

  lemma GlyphsOfConcat(a: seq<Placed>, b: seq<Placed>)
    ensures GlyphsOf(a + b) == GlyphsOf(a) + GlyphsOf(b)
  {
  }

  lemma {:induction false} GlyphsComplete(glyphs: seq<nat>, p: Pos, width: nat)
    ensures GlyphsOf(Glyphs(glyphs, p, width)) == glyphs
    decreases |glyphs|
  {
    if glyphs != [] {
      var w := Wrap(p, width);
      var rest := Glyphs(glyphs[1..], Pos(w.row, w.column + 1), width);
      GlyphsComplete(glyphs[1..], Pos(w.row, w.column + 1), width);
      GlyphsOfConcat([Placed(w.row, w.column, glyphs[0])], rest);
    }
  }

  /** The placed glyphs, in order, are the glyphs of the words, in order. */
  lemma {:induction false} LayoutComplete(items: seq<Item>, p: Pos, width: nat)
    ensures GlyphsOf(Layout(items, p, width)) == WordsOf(items)
    decreases |items|
  {
    if items != [] {
      var q := Advance(items[0], p, width);
      if items[0].Word? {
        GlyphsComplete(items[0].glyphs, StartOf(p, |items[0].glyphs|, width), width);
      }
      GlyphsOfConcat(PlaceItem(items[0], p, width), Layout(items[1..], q, width));
      LayoutComplete(items[1..], q, width);
    }
  }

  /** The decoded text without spaces and newlines. */
  function Visible(cps: seq<nat>): seq<nat> {
    if cps == [] then [] else (if cps[0] == 0x20 || cps[0] == 0x0A then [] else [cps[0]]) + Visible(cps[1..])
  }

  /** No multi-byte sequence decodes to a space or a newline (both have overlong forms). */
  ghost predicate NoOverlongSeparator(text: seq<byte>, i: nat)
    requires i <= |text|
    decreases |text| - i
  {
    i == |text| ||
    ((text[i] >= 0x80 ==> Next(text, i).0 != 0x20 && Next(text, i).0 != 0x0A) &&
     NoOverlongSeparator(text, Next(text, i).1))
  }

  /** The words of a text, written as a walk over its codepoints. */
  function Drawable(text: seq<byte>, i: nat): seq<nat>
    requires i <= |text|
    decreases |text| - i
  {
    if i == |text| then []
    else (if Separates(text[i]) then [] else [Next(text, i).0]) + Drawable(text, Next(text, i).1)
  }

  lemma {:induction false} WordDrawable(text: seq<byte>, i: nat)
    requires i <= |text|
    ensures Drawable(text, i) == WordGlyphs(text, i) + Drawable(text, WordEnd(text, i))
    decreases |text| - i
  {
    if i < |text| && !Separates(text[i]) {
      var (cp, next) := Next(text, i);
      WordDrawable(text, next);
      ConcatAssoc([cp], WordGlyphs(text, next), Drawable(text, WordEnd(text, next)));
    }
  }

  lemma {:induction false} WordsAreDrawable(text: seq<byte>, i: nat)
    requires i <= |text|
    ensures WordsOf(Items(text, i)) == Drawable(text, i)
    decreases |text| - i
  {
    if i < |text| {
      WordsAreDrawable(text, ItemEnd(text, i));
      assert Items(text, i)[1..] == Items(text, ItemEnd(text, i));
      if Separates(text[i]) {
        assert Next(text, i).1 == i + 1;
      } else {
        WordDrawable(text, i);
      }
    }
  }

  lemma {:induction false} DrawableIffVisible(text: seq<byte>, i: nat)
    requires i <= |text|
    ensures |Drawable(text, i)| >= |Visible(Decode(text, i))|
    ensures Drawable(text, i) == Visible(Decode(text, i)) <==> NoOverlongSeparator(text, i)
    decreases |text| - i
  {
    if i < |text| {
      var (cp, next) := Next(text, i);
      DrawableIffVisible(text, next);
      assert Decode(text, i)[1..] == Decode(text, next);
      var head := if Separates(text[i]) then [] else [cp];
      var seen := if cp == 0x20 || cp == 0x0A then [] else [cp];
      if head == seen {
        assert (head + Drawable(text, next))[|head|..] == Drawable(text, next);
        assert (head + Visible(Decode(text, next)))[|head|..] == Visible(Decode(text, next));
      } else {
        assert |head| == 1 && |seen| == 0;
      }
    }
  }

  /**
   Content is preserved: the placed glyphs in reading order are the decoded text without its
   spaces and newlines - exactly when no overlong sequence decodes to one of those, since
   such a sequence is drawn like any other glyph.
   */
  lemma ContentPreserved(text: seq<byte>, width: nat)
    ensures GlyphsOf(Layout(Items(text, 0), ORIGIN, width)) == Visible(Decode(text, 0)) <==>
              NoOverlongSeparator(text, 0)
  {
    LayoutComplete(Items(text, 0), ORIGIN, width);
    WordsAreDrawable(text, 0);
    DrawableIffVisible(text, 0);
  }

  lemma {:induction false} PiecesShortest(before: seq<byte>, pieces: seq<Piece>)
    requires Strayed(pieces)
    ensures NoOverlongSeparator(before + BytesOf(pieces), |before|)
    decreases |pieces|
  {
    if pieces == [] {
      assert before + [] == before;
    } else {
      PieceFirst(before, pieces);
      PiecesShortest(before + Spelled(pieces[0]), pieces[1..]);
      assert (before + BytesOf(pieces))[|before|] == Spelled(pieces[0])[0];
    }
  }

  /** Stray bytes lose nothing: every codepoint before, between and after them is drawn, and U+FFFD for each of them. */
  lemma StrayBytesLoseNothing(pieces: seq<Piece>, width: nat)
    requires Strayed(pieces)
    ensures GlyphsOf(Layout(Items(BytesOf(pieces), 0), Pos(0, 0), width)) == Visible(SeenAs(pieces))
  {
    var text := BytesOf(pieces);
    assert [] + text == text;
    PiecesShortest([], pieces);
    DecodeOfPieces([], pieces);
    ContentPreserved(text, width);
  }

  // ---------------------------------------------------------------- items and their text

  /** The bytes of an item. */
  function Written(item: Item): seq<byte>
    requires item.Word? ==> forall k | 0 <= k < |item.glyphs| :: item.glyphs[k] < 0x20_0000
  {
    match item case Newline => [0x0A] case Space => [0x20] case Word(glyphs) => EncodeAll(glyphs)
  }

  /** Codepoints that can be encoded and are no separators. */
  predicate Spellable(glyphs: seq<nat>) {
    forall k | 0 <= k < |glyphs| :: glyphs[k] < 0x20_0000 && glyphs[k] != 0x20 && glyphs[k] != 0x0A
  }

  /** No word is empty, contains a separator, or stands next to another word. */
  predicate Writable(items: seq<Item>) {
    items == [] ||
    (Writable(items[1..]) &&
     (items[0].Word? ==>
        items[0].glyphs != [] && (|items| > 1 ==> !items[1].Word?) &&
        Spellable(items[0].glyphs)))
  }

  function TextOf(items: seq<Item>): seq<byte>
    requires Writable(items)
  {
    if items == [] then [] else Written(items[0]) + TextOf(items[1..])
  }

  /** These bytes stand at position `i`. */
  predicate Spelt(text: seq<byte>, i: nat, s: seq<byte>)
    decreases |s|
  {
    s == [] || (i < |text| && text[i] == s[0] && Spelt(text, i + 1, s[1..]))
  }

  lemma {:induction false} SpeltSplit(text: seq<byte>, i: nat, a: seq<byte>, b: seq<byte>)
    requires Spelt(text, i, a + b)
    ensures Spelt(text, i, a) && Spelt(text, i + |a|, b)
    decreases |a|
  {
    if a == [] {
      assert a + b == b;
    } else {
      assert (a + b)[1..] == a[1..] + b;
      SpeltSplit(text, i + 1, a[1..], b);
    }
  }

  lemma {:induction false} SpeltStands(text: seq<byte>, i: nat, s: seq<byte>)
    requires Spelt(text, i, s) && i <= |text|
    ensures StandsAt(text, i, s)
    decreases |s|
  {
    if s != [] {
      SpeltStands(text, i + 1, s[1..]);
      forall k | 0 <= k < |s| ensures text[i + k] == s[k] {
        assert k > 0 ==> text[i + 1 + (k - 1)] == s[1..][k - 1];
      }
    }
  }

  lemma {:induction false} SpeltSuffix(text: seq<byte>, i: nat)
    requires i <= |text|
    ensures Spelt(text, i, text[i..])
    decreases |text| - i
  {
    if i < |text| {
      SpeltSuffix(text, i + 1);
      assert text[i..][1..] == text[i + 1..];
    }
  }

  lemma WordStep(text: seq<byte>, i: nat, cp: nat, next: nat)
    requires i < |text| && !Separates(text[i]) && Next(text, i) == (cp, next)
    ensures WordGlyphs(text, i) == [cp] + WordGlyphs(text, next) && WordEnd(text, i) == WordEnd(text, next)
  {
  }

  /** One glyph read where it stands. */
  lemma GlyphSpelt(text: seq<byte>, i: nat, cp: Codepoint)
    requires Spelt(text, i, Encode(cp)) && cp != 0x20 && cp != 0x0A
    ensures i < |text| && !Separates(text[i]) && Next(text, i) == (cp, i + |Encode(cp)|)
  {
    SpeltStands(text, i, Encode(cp));
    NextOfEncode(text, i, cp);
  }

  lemma {:induction false} WordOfGlyphs(text: seq<byte>, i: nat, glyphs: seq<Codepoint>, end: nat)
    requires Spelt(text, i, EncodeAll(glyphs)) && end == i + |EncodeAll(glyphs)| <= |text| && Spellable(glyphs)
    requires end == |text| || Separates(text[end])
    ensures WordGlyphs(text, i) == glyphs && WordEnd(text, i) == end
    decreases |glyphs|
  {
    if glyphs != [] {
      var next := i + |Encode(glyphs[0])|;
      SpeltSplit(text, i, Encode(glyphs[0]), EncodeAll(glyphs[1..]));
      GlyphSpelt(text, i, glyphs[0]);
      WordOfGlyphs(text, next, glyphs[1..], end);
      WordStep(text, i, glyphs[0], next);
    }
  }

  /** Where a written word ends stands the end of the text or a separator. */
  lemma AfterWord(text: seq<byte>, end: nat, items: seq<Item>)
    requires items != [] && Writable(items) && items[0].Word?
    requires Spelt(text, end, TextOf(items[1..])) && end + |TextOf(items[1..])| == |text|
    ensures end == |text| || Separates(text[end])
  {
  }

  lemma ItemFirst(text: seq<byte>, i: nat, item: Item, end: nat)
    requires Writable([item]) && Spelt(text, i, Written(item)) && end == i + |Written(item)| <= |text|
    requires item.Word? ==> end == |text| || Separates(text[end])
    ensures i < end && ItemAt(text, i) == item && ItemEnd(text, i) == end
  {
    if item.Word? {
      SpeltSplit(text, i, Encode(item.glyphs[0]), EncodeAll(item.glyphs[1..]));
      GlyphSpelt(text, i, item.glyphs[0]);
      WordOfGlyphs(text, i, item.glyphs, end);
    }
  }

  lemma {:induction false} ItemsSpelt(text: seq<byte>, i: nat, items: seq<Item>)
    requires Writable(items) && Spelt(text, i, TextOf(items)) && i + |TextOf(items)| == |text|
    ensures Items(text, i) == items
    decreases |items|
  {
    if items != [] {
      var end := i + |Written(items[0])|;
      SpeltSplit(text, i, Written(items[0]), TextOf(items[1..]));
      if items[0].Word? {
        AfterWord(text, end, items);
      }
      ItemFirst(text, i, items[0], end);
      ItemsSpelt(text, end, items[1..]);
    }
  }

  /** Writing items out and reading the text gives them back: newlines, spaces and words are told apart. */
  lemma ItemsOfText(items: seq<Item>)
    requires Writable(items)
    ensures Items(TextOf(items), 0) == items
  {
    var text := TextOf(items);
    SpeltSuffix(text, 0);
    assert text[0..] == text;
    ItemsSpelt(text, 0, items);
  }

  /** 0xC0 0xA0 decodes to a space and is drawn. */
  lemma OverlongSpaceIsDrawn()
    ensures GlyphsOf(Layout(Items([0xC0, 0xA0], 0), ORIGIN, 8)) != Visible(Decode([0xC0, 0xA0], 0))
  {
    var text: seq<byte> := [0xC0, 0xA0];
    assert Tail(text, 2, 0, 0x20) == 0x20;
    assert Tail(text, 1, 1, 0) == 0x20;
    assert Next(text, 0).0 == 0x20;
    ContentPreserved(text, 8);
  }

  // ---------------------------------------------------------------- what is on the console

  ghost predicate Inside(ps: seq<Placed>, columns: nat, rows: nat, x: int, y: int, width: nat, height: int) {
    0 <= x && x + width <= columns && 0 <= y && y + height <= rows &&
    forall i | 0 <= i < |ps| :: ps[i].column < width
  }

  function CellOf(p: Placed, columns: nat, x: int, y: int): int {
    (y + p.row) * columns + (x + p.column)
  }

  lemma PlacedInside(ps: seq<Placed>, columns: nat, rows: nat, x: int, y: int, width: nat, height: int, i: nat)
    requires Inside(ps, columns, rows, x, y, width, height) && i < |ps| && ps[i].row < height
    ensures 0 <= CellOf(ps[i], columns, x, y) < columns * rows
  {
    CellIndex(x + ps[i].column, y + ps[i].row, columns, rows);
  }

  /** Every glyph above the height is on the console afterwards: nothing overwrites it. */
  lemma {:induction false} GlyphShown(cells: seq<Cell>, columns: nat, rows: nat, x: int, y: int, width: nat,
                                      height: int, ps: seq<Placed>, fg: Color, bg: Color, i: nat)
    requires |cells| == columns * rows && Inside(ps, columns, rows, x, y, width, height) && InReadingOrder(ps)
    requires i < |ps| && ps[i].row < height
    ensures 0 <= CellOf(ps[i], columns, x, y) < columns * rows
    ensures Draw(cells, columns, rows, x, y, height, ps, fg, bg)[CellOf(ps[i], columns, x, y)]
            == Cell(ps[i].glyph, None, fg, bg)
    decreases |ps|
  {
    PlacedInside(ps, columns, rows, x, y, width, height, i);
    var last := ps[|ps| - 1];
    if i < |ps| - 1 {
      var before := ps[..|ps| - 1];
      assert InReadingOrder(before) && before[i] == ps[i];
      GlyphShown(cells, columns, rows, x, y, width, height, before, fg, bg, i);
      assert Lt(At(ps[i]), At(last));
      if last.row < height && CellOf(last, columns, x, y) == CellOf(ps[i], columns, x, y) {
        CellsDiffer(x + last.column, y + last.row, x + ps[i].column, y + ps[i].row, columns);
      }
    }
  }

  /** Every other cell keeps what it had. */
  lemma {:induction false} OtherCellsKept(cells: seq<Cell>, columns: nat, rows: nat, x: int, y: int, width: nat,
                                          height: int, ps: seq<Placed>, fg: Color, bg: Color, c: nat)
    requires |cells| == columns * rows && Inside(ps, columns, rows, x, y, width, height) && c < |cells|
    requires forall i | 0 <= i < |ps| && ps[i].row < height :: CellOf(ps[i], columns, x, y) != c
    ensures Draw(cells, columns, rows, x, y, height, ps, fg, bg)[c] == cells[c]
    decreases |ps|
  {
    if ps != [] {
      var before := ps[..|ps| - 1];
      assert forall i | 0 <= i < |before| :: before[i] == ps[i];
      OtherCellsKept(cells, columns, rows, x, y, width, height, before, fg, bg, c);
      assert ps[|ps| - 1].row < height ==> CellOf(ps[|ps| - 1], columns, x, y) != c;
    }
  }

  /**
   Wrapped text drawn with enough height: each glyph of each word stands at its own cell, in
   reading order, and no other cell changes.
   */
  lemma WrappedTextShown(cells: seq<Cell>, columns: nat, rows: nat, x: int, y: int, width: nat, height: int,
                         text: seq<byte>, fg: Color, bg: Color)
    requires |cells| == columns * rows && width >= 1
    requires 0 <= x && x + width <= columns && 0 <= y && y + height <= rows
    requires End(Items(text, 0), ORIGIN, width).row < height
    ensures var ps := Layout(Items(text, 0), ORIGIN, width);
            var after := Draw(cells, columns, rows, x, y, height, ps, fg, bg);
            InReadingOrder(ps) &&
            (forall i | 0 <= i < |ps| ::
               0 <= CellOf(ps[i], columns, x, y) < columns * rows &&
               after[CellOf(ps[i], columns, x, y)] == Cell(ps[i].glyph, None, fg, bg)) &&
            (forall c | 0 <= c < |cells| && (forall i | 0 <= i < |ps| :: CellOf(ps[i], columns, x, y) != c) ::
               after[c] == cells[c])
  {
    var ps := Layout(Items(text, 0), ORIGIN, width);
    LayoutOrdered(Items(text, 0), ORIGIN, width);
    forall i | 0 <= i < |ps|
      ensures 0 <= CellOf(ps[i], columns, x, y) < columns * rows
      ensures Draw(cells, columns, rows, x, y, height, ps, fg, bg)[CellOf(ps[i], columns, x, y)]
              == Cell(ps[i].glyph, None, fg, bg)
    {
      GlyphShown(cells, columns, rows, x, y, width, height, ps, fg, bg, i);
    }
    forall c | 0 <= c < |cells| && (forall i | 0 <= i < |ps| :: CellOf(ps[i], columns, x, y) != c)
      ensures Draw(cells, columns, rows, x, y, height, ps, fg, bg)[c] == cells[c]
    {
      OtherCellsKept(cells, columns, rows, x, y, width, height, ps, fg, bg, c);
    }
  }

  // ---------------------------------------------------------------- fewest rows

  /** `n` glyphs fit in `rows` full rows and `column` more cells. */
  predicate Fits(n: nat, width: nat, rows: nat, column: nat) {
    1 <= column <= width && n <= rows * width + column
  }

  /**
   Where any layout may put a word of `n` glyphs when the row so far ends at `p`, and where
   the word ends. On the same row it keeps its gap; on a later row, or on an empty one, it
   may stand anywhere. A word that fits a row stays whole; a longer one starts a fresh row
   and may be broken anywhere.
   */
  ghost predicate MayPut(n: nat, p: Pos, start: Pos, end: Pos, width: nat) {
    (start.row > p.row || (start.row == p.row && (p.column == 0 || start.column == p.column))) &&
    if n <= width then start.column + n <= width && end == Pos(start.row, start.column + n)
    else
      start.column == 0 && (p.column == 0 || start.row > p.row) &&
      end.row >= start.row && Fits(n, width, end.row - start.row, end.column)
  }

  ghost predicate MayStep(item: Item, p: Pos, q: Pos, width: nat) {
    match item
    case Newline => q == Pos(p.row + 1, 0)
    case Space => q == (if 0 < p.column < width then Pos(p.row, p.column + 1) else p)
    case Word(glyphs) => exists start :: MayPut(|glyphs|, p, start, q, width)
  }

  /** A layout, given by the end of the text after each item. */
  ghost predicate IsLayout(items: seq<Item>, ends: seq<Pos>, width: nat) {
    |ends| == |items| + 1 && ends[0] == Pos(0, 0) &&
    forall i | 0 <= i < |items| :: MayStep(items[i], ends[i], ends[i + 1], width)
  }

  /** A word broken only at full rows ends as early as it can. */
  lemma {:induction false} AfterExact(n: nat, p: Pos, width: nat)
    requires width >= 1 && n >= 1 && p.column <= width
    ensures var e := After(n, p, width);
            e.row >= p.row && 1 <= e.column <= width && p.column + n == (e.row - p.row) * width + e.column
    decreases n
  {
    var w := Wrap(p, width);
    if n > 1 {
      var q := Pos(w.row, w.column + 1);
      AfterExact(n - 1, q, width);
      var e := After(n, p, width);
      if w.row > p.row {
        assert (e.row - p.row) * width == (e.row - q.row) * width + width;
      }
    } else {
      assert After(1, p, width) == Pos(w.row, w.column + 1);
      assert After(0, Pos(w.row, w.column + 1), width) == Pos(w.row, w.column + 1);
    }
  }

  lemma ExactIsLeast(n: nat, width: nat, rows: nat, column: nat, rows': nat, column': nat)
    requires width >= 1 && 1 <= column <= width && n == rows * width + column && Fits(n, width, rows', column')
    ensures Leq(Pos(rows, column), Pos(rows', column'))
  {
    assert rows <= rows' by {
      if rows > rows' {
        RowBefore(rows', rows, width);
      }
    }
  }

  lemma LongWordLeads(n: nat, p: Pos, q: Pos, start: Pos, end: Pos, width: nat)
    requires width >= 1 && n > width && p.column <= width && Leq(p, q) && MayPut(n, q, start, end, width)
    ensures Leq(After(n, StartOf(p, n, width), width), end)
  {
    var s := StartOf(p, n, width);
    assert s.column == 0;
    assert s.row <= start.row;
    AfterExact(n, s, width);
    var e := After(n, s, width);
    ExactIsLeast(n, width, e.row - s.row, e.column, end.row - start.row, end.column);
  }

  lemma {:induction false} AfterInRow(n: nat, p: Pos, width: nat)
    requires p.column + n <= width
    ensures After(n, p, width) == Pos(p.row, p.column + n)
    decreases n
  {
    if n > 0 {
      AfterInRow(n - 1, Pos(p.row, p.column + 1), width);
    }
  }

  lemma WordLeads(n: nat, p: Pos, q: Pos, end: Pos, width: nat)
    requires width >= 1 && p.column <= width && Leq(p, q) && exists start :: MayPut(n, q, start, end, width)
    ensures Leq(After(n, StartOf(p, n, width), width), end)
  {
    var start :| MayPut(n, q, start, end, width);
    if n <= width {
      AfterInRow(n, StartOf(p, n, width), width);
    } else {
      LongWordLeads(n, p, q, start, end, width);
    }
  }

  lemma ColumnStays(item: Item, p: Pos, width: nat)
    requires width >= 1 && p.column <= width
    ensures Advance(item, p, width).column <= width
  {
    if item.Word? && item.glyphs != [] {
      AfterExact(|item.glyphs|, StartOf(p, |item.glyphs|, width), width);
    }
  }

  /** The greedy layout never falls behind any other. */
  lemma {:induction false} GreedyLeads(items: seq<Item>, p: Pos, ends: seq<Pos>, width: nat)
    requires width >= 1 && p.column <= width && |ends| == |items| + 1 && Leq(p, ends[0])
    requires forall i | 0 <= i < |items| :: MayStep(items[i], ends[i], ends[i + 1], width)
    ensures Leq(End(items, p, width), ends[|items|])
    decreases |items|
  {
    if items != [] {
      assert MayStep(items[0], ends[0], ends[1], width);
      if items[0].Word? {
        WordLeads(|items[0].glyphs|, p, ends[0], ends[1], width);
      }
      ColumnStays(items[0], p, width);
      var rest := ends[1..];
      assert forall i | 0 <= i < |items| - 1 :: MayStep(items[1..][i], rest[i], rest[i + 1], width) by {
        forall i | 0 <= i < |items| - 1 ensures MayStep(items[1..][i], rest[i], rest[i + 1], width) {
          assert MayStep(items[i + 1], ends[i + 1], ends[i + 2], width);
        }
      }
      GreedyLeads(items[1..], Advance(items[0], p, width), rest, width);
    }
  }

  /** No layout uses fewer rows than `print_wrapped` returns. */
  lemma FewestRows(text: seq<byte>, ends: seq<Pos>, width: nat)
    requires width >= 1 && IsLayout(Items(text, 0), ends, width)
    ensures End(Items(text, 0), ORIGIN, width).row <= ends[|Items(text, 0)|].row
  {
    GreedyLeads(Items(text, 0), ORIGIN, ends, width);
  }

  /** The ends the greedy layout passes through. */
  function GreedyEnds(items: seq<Item>, p: Pos, width: nat): (r: seq<Pos>)
    ensures |r| == |items| + 1 && r[0] == p && r[|items|] == End(items, p, width)
  {
    if items == [] then [p] else [p] + GreedyEnds(items[1..], Advance(items[0], p, width), width)
  }

  lemma GreedyMayStep(item: Item, p: Pos, width: nat)
    requires width >= 1 && p.column <= width && (item.Word? ==> item.glyphs != [])
    ensures MayStep(item, p, Advance(item, p, width), width)
  {
    if item.Word? {
      var n := |item.glyphs|;
      var start := StartOf(p, n, width);
      if n <= width {
        AfterInRow(n, start, width);
      } else {
        AfterExact(n, start, width);
      }
      assert MayPut(n, p, start, Advance(item, p, width), width);
    }
  }

  lemma {:induction false} GreedyIsALayout(items: seq<Item>, p: Pos, width: nat, i: nat)
    requires width >= 1 && p.column <= width && i < |items|
    requires forall k | 0 <= k < |items| && items[k].Word? :: items[k].glyphs != []
    ensures MayStep(items[i], GreedyEnds(items, p, width)[i], GreedyEnds(items, p, width)[i + 1], width)
    decreases |items|
  {
    GreedyMayStep(items[0], p, width);
    if i > 0 {
      ColumnStays(items[0], p, width);
      GreedyIsALayout(items[1..], Advance(items[0], p, width), width, i - 1);
    }
  }

  lemma {:induction false} WordsNotEmpty(text: seq<byte>, i: nat, k: nat)
    requires i <= |text| && k < |Items(text, i)| && Items(text, i)[k].Word?
    ensures Items(text, i)[k].glyphs != []
    decreases k
  {
    if k > 0 {
      WordsNotEmpty(text, ItemEnd(text, i), k - 1);
    }
  }

  /** The greedy layout is one of the layouts it is compared with, so its row count is the least. */
  lemma GreedyAttainsFewest(text: seq<byte>, width: nat)
    requires width >= 1
    ensures IsLayout(Items(text, 0), GreedyEnds(Items(text, 0), ORIGIN, width), width)
  {
    var items := Items(text, 0);
    forall k | 0 <= k < |items| && items[k].Word? ensures items[k].glyphs != [] {
      WordsNotEmpty(text, 0, k);
    }
    forall i | 0 <= i < |items|
      ensures MayStep(items[i], GreedyEnds(items, ORIGIN, width)[i], GreedyEnds(items, ORIGIN, width)[i + 1], width)
    {
      GreedyIsALayout(items, ORIGIN, width, i);
    }
  }
}
