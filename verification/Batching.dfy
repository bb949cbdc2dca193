/** Turning a console into quads: one pass for the backgrounds, then one pass per atlas. */
module Batching {
  import opened Bits
  import opened Division
  import opened Options
  import opened Sequences

  datatype Color = Color(r: byte, g: byte, b: byte, a: byte)
  datatype Cell = Cell(glyph: nat, fg: Color, bg: Color, tileset: Option<nat>)

  /** A tileset as the renderer reads it; `id` is its address. */
  datatype Atlas = Atlas(id: nat, columns: nat, rows: nat, codepoints: map<nat, int>, texture: bool)
  {
    function Count(): nat {
      columns * rows
    }

    predicate Usable()
      ensures Usable() ==> columns > 0 && rows > 0
    {
      Count() > 0 && texture
    }

    function IndexFor(codepoint: nat): int {
      if codepoint in codepoints then codepoints[codepoint] else -1
    }
  }

  datatype Size = Size(columns: nat, rows: nat)

  /** Index of the first cell of a row. */
  function RowStart(columns: nat, y: nat): nat {
    if y == 0 then 0 else RowStart(columns, y - 1) + columns
  }

  lemma {:induction false} RowStartIs(columns: nat, y: nat)
    ensures RowStart(columns, y) == y * columns
  {
    if y > 0 {
      RowStartIs(columns, y - 1);
    }
  }

  /** A console has at least one cell, and as many as its size says. */
  ghost predicate CellsFit(size: Size, cells: seq<Cell>) {
    size.columns > 0 && size.rows > 0 && |cells| == RowStart(size.columns, size.rows)
  }

  datatype Frame = Frame(size: Size, cells: seq<Cell>)
  type Console = f: Frame | CellsFit(f.size, f.cells)
    ghost witness Frame(Size(1, 1), [Cell(0, Color(0, 0, 0, 0), Color(0, 0, 0, 0), None)])

  lemma {:induction false} RowsInOrder(columns: nat, y: nat, rows: nat)
    requires y < rows
    ensures RowStart(columns, y) + columns <= RowStart(columns, rows)
    decreases rows
  {
    if y < rows - 1 {
      RowsInOrder(columns, y, rows - 1);
    }
  }

  lemma CellIndex(c: Console, x: nat, y: nat)
    requires x < c.size.columns && y < c.size.rows
    ensures RowStart(c.size.columns, y) + x < |c.cells|
  {
    RowsInOrder(c.size.columns, y, c.size.rows);
  }

  function At(c: Console, x: nat, y: nat): Cell
    requires x < c.size.columns && y < c.size.rows
  {
    CellIndex(c, x, y);
    c.cells[RowStart(c.size.columns, y) + x]
  }

  method CellAt(c: Console, x: nat, y: nat) returns (cell: Cell)
    requires x < c.size.columns && y < c.size.rows
    ensures cell == At(c, x, y)
  {
    CellIndex(c, x, y);
    RowStartIs(c.size.columns, y);
    cell := c.cells[y * c.size.columns + x];
  }

  // ---------------------------------------------------------------- quads

  datatype Quad = Quad(x0: real, y0: real, x1: real, y1: real, u0: real, v0: real, u1: real, v1: real,
                       fg: Color, bg: Color)

  /** Size of a cell on the framebuffer, in pixels. */
  datatype Scale = Scale(width: real, height: real)

  function Channel(b: byte): real {
    b as real / 255.0
  }

  function Corner(x: real, y: real, u: real, v: real, fg: Color, bg: Color): (f: seq<real>)
    ensures |f| == 12
  {
    [x, y, u, v,
     Channel(fg.r), Channel(fg.g), Channel(fg.b), Channel(fg.a),
     Channel(bg.r), Channel(bg.g), Channel(bg.b), Channel(bg.a)]
  }

  /** Two triangles: (0, 1, 2) and (0, 2, 3) of the corners taken clockwise. */
  function Vertex(q: Quad, i: nat): (f: seq<real>)
    ensures |f| == 12
  {
    match i
    case 1 => Corner(q.x1, q.y0, q.u1, q.v0, q.fg, q.bg)
    case 2 => Corner(q.x1, q.y1, q.u1, q.v1, q.fg, q.bg)
    case 4 => Corner(q.x1, q.y1, q.u1, q.v1, q.fg, q.bg)
    case 5 => Corner(q.x0, q.y1, q.u0, q.v1, q.fg, q.bg)
    case _ => Corner(q.x0, q.y0, q.u0, q.v0, q.fg, q.bg)
  }

  function Vertices(q: Quad, n: nat): (f: seq<real>)
    ensures |f| == 12 * n
    decreases q, n
  {
    if n == 0 then [] else Vertices(q, n - 1) + Vertex(q, n - 1)
  }

  /** What is drawn in a cell: a tile of some sheet in the cell's colours. */
  datatype Glyph = Glyph(x: nat, y: nat, tile: nat, fg: Color, bg: Color)

  function PlacedQuad(s: Scale, g: Glyph, u0: real, v0: real, u1: real, v1: real): Quad {
    Quad(g.x as real * s.width, g.y as real * s.height, (g.x + 1) as real * s.width, (g.y + 1) as real * s.height,
         u0, v0, u1, v1, g.fg, g.bg)
  }

  function TileQuad(atlas: Atlas, s: Scale, g: Glyph): Quad
    requires atlas.Usable()
  {
    QuadAt(s, g, g.tile % atlas.columns, g.tile / atlas.columns, 1.0 / atlas.columns as real, 1.0 / atlas.rows as real)
  }

  function QuadAt(s: Scale, g: Glyph, column: nat, row: nat, du: real, dv: real): Quad {
    var u0, v0 := column as real * du, row as real * dv;
    PlacedQuad(s, g, u0, v0, u0 + du, v0 + dv)
  }

  /** The coordinate arithmetic of a pass. */
  type Painter = Glyph -> Quad

  function Plain(s: Scale): Painter {
    (g: Glyph) => PlacedQuad(s, g, 0.0, 0.0, 0.0, 0.0)
  }

  function Textured(atlas: Atlas, s: Scale): Painter
    requires atlas.Usable()
  {
    (g: Glyph) => TileQuad(atlas, s, g)
  }

  /** The vertex data of a list of glyphs. */
  function Floats(paint: Painter, glyphs: seq<Glyph>): (f: seq<real>)
    ensures |f| == 72 * |glyphs|
  {
    if glyphs == [] then []
    else Floats(paint, glyphs[..|glyphs| - 1]) + Vertices(paint(glyphs[|glyphs| - 1]), 6)
  }

  lemma FloatsPush(paint: Painter, glyphs: seq<Glyph>, g: Glyph)
    ensures Floats(paint, glyphs + [g]) == Floats(paint, glyphs) + Vertices(paint(g), 6)
  {
    assert (glyphs + [g])[..|glyphs|] == glyphs;
  }

  // ---------------------------------------------------------------- what each pass emits

  function BackgroundOf(cell: Cell, x: nat, y: nat): Option<Glyph> {
    if cell.bg.a == 0 then None else Some(Glyph(x, y, 0, cell.fg, cell.bg))
  }

  /** `(int)glyph` for a 32-bit glyph. */
  function ToInt(glyph: nat): int {
    if glyph < 0x8000_0000 then glyph else glyph - WORD
  }

  /** The tile of this atlas a cell asks for, or something outside the sheet. */
  function TileOf(atlas: Atlas, cell: Cell): int {
    if cell.tileset.Some? then ToInt(cell.glyph)
    else if cell.glyph == 0x20 || cell.glyph == 0 then -1
    else if atlas.IndexFor(cell.glyph) >= 0 then atlas.IndexFor(cell.glyph)
    else atlas.IndexFor(0x3F)
  }

  /** The glyph of a cell whose atlas this is. */
  function GlyphOf(atlas: Atlas, cell: Cell, x: nat, y: nat): Option<Glyph> {
    if atlas.Usable() && cell.fg.a != 0 && 0 <= TileOf(atlas, cell) < atlas.Count()
    then Some(Glyph(x, y, TileOf(atlas, cell), cell.fg, cell.bg))
    else None
  }

  /**
   The tile a cell shows from its atlas: its own number when it names a tileset, otherwise the tile of its codepoint,
   or of the question mark if the codepoint has none; nothing for a space or a zero.
   */
  predicate Shows(atlas: Atlas, cell: Cell, tile: nat) {
    tile < atlas.columns * atlas.rows &&
    if cell.tileset.Some? then cell.glyph == tile < 0x8000_0000
    else
      cell.glyph != 0x20 && cell.glyph != 0 &&
      ((cell.glyph in atlas.codepoints && atlas.codepoints[cell.glyph] == tile) ||
       (!(cell.glyph in atlas.codepoints && atlas.codepoints[cell.glyph] >= 0) &&
        0x3F in atlas.codepoints && atlas.codepoints[0x3F] == tile))
  }

  /** A 32-bit glyph is drawn exactly when its atlas can be used, its colour is not clear and it shows a tile. */
  lemma GlyphIs(atlas: Atlas, cell: Cell, x: nat, y: nat, g: Glyph)
    requires cell.glyph < WORD
    ensures GlyphOf(atlas, cell, x, y) == Some(g) <==>
              atlas.columns > 0 && atlas.rows > 0 && atlas.texture && cell.fg.a != 0 && Shows(atlas, cell, g.tile) &&
              g.x == x && g.y == y && g.fg == cell.fg && g.bg == cell.bg
  {
    PositiveProduct(atlas.columns, atlas.rows);
  }

  lemma PositiveProduct(a: nat, b: nat)
    ensures a * b > 0 <==> a > 0 && b > 0
  {
  }

  /** A background is drawn exactly for a cell whose background is not clear, in that colour. */
  lemma BackgroundIs(cell: Cell, x: nat, y: nat)
    ensures BackgroundOf(cell, x, y).Some? <==> cell.bg.a != 0
    ensures BackgroundOf(cell, x, y).Some? ==>
              var g := BackgroundOf(cell, x, y).value; g.x == x && g.y == y && g.bg == cell.bg
  {
  }

  function Source(cell: Cell, font: nat): nat {
    if cell.tileset.Some? then cell.tileset.value else font
  }

  function Listed<T>(o: Option<T>): seq<T> {
    if o.Some? then [o.value] else []
  }

  /** The backgrounds of all cells before (x, y) in row-major order. */
  function Backgrounds(c: Console, x: nat, y: nat): (glyphs: seq<Glyph>)
    requires x <= c.size.columns && y <= c.size.rows && (y == c.size.rows ==> x == 0)
    ensures |glyphs| <= RowStart(c.size.columns, y) + x
    decreases y, x
  {
    if x > 0 then Backgrounds(c, x - 1, y) + Listed(BackgroundOf(At(c, x - 1, y), x - 1, y))
    else if y > 0 then Backgrounds(c, c.size.columns, y - 1)
    else []
  }

  lemma BackgroundsNext(c: Console, x: nat, y: nat)
    requires x < c.size.columns && y < c.size.rows
    ensures Backgrounds(c, x + 1, y) == Backgrounds(c, x, y) + Listed(BackgroundOf(At(c, x, y), x, y))
    ensures |Backgrounds(c, x, y)| < |c.cells|
  {
    CellIndex(c, x, y);
  }

  /** What one atlas's pass emits for the cells before (x, y) in row-major order. */
  function PassGlyphs(c: Console, font: nat, atlas: Atlas, x: nat, y: nat): (glyphs: seq<Glyph>)
    requires x <= c.size.columns && y <= c.size.rows && (y == c.size.rows ==> x == 0)
    ensures |glyphs| <= RowStart(c.size.columns, y) + x
    decreases y, x
  {
    if x > 0 then
      PassGlyphs(c, font, atlas, x - 1, y) + Listed(InPass(font, atlas, At(c, x - 1, y), x - 1, y))
    else if y > 0 then PassGlyphs(c, font, atlas, c.size.columns, y - 1)
    else []
  }

  lemma PassNext(c: Console, font: nat, atlas: Atlas, x: nat, y: nat)
    requires x < c.size.columns && y < c.size.rows
    ensures PassGlyphs(c, font, atlas, x + 1, y) ==
              PassGlyphs(c, font, atlas, x, y) + Listed(InPass(font, atlas, At(c, x, y), x, y))
    ensures |PassGlyphs(c, font, atlas, x, y)| < |c.cells|
  {
    CellIndex(c, x, y);
  }

  function InPass(font: nat, atlas: Atlas, cell: Cell, x: nat, y: nat): Option<Glyph> {
    if Source(cell, font) == atlas.id then GlyphOf(atlas, cell, x, y) else None
  }

  function Pass(c: Console, font: nat, atlas: Atlas): seq<Glyph> {
    PassGlyphs(c, font, atlas, 0, c.size.rows)
  }

  // ---------------------------------------------------------------- the naive rendering

  datatype Sprite = Sprite(atlas: nat, glyph: Glyph)

  function Registered(atlases: seq<Atlas>, id: nat): Option<Atlas> {
    if atlases == [] then None
    else if atlases[0].id == id then Some(atlases[0])
    else Registered(atlases[1..], id)
  }

  /** One cell drawn by itself: look its tileset up, then its tile. */
  function SpriteOf(font: nat, atlases: seq<Atlas>, cell: Cell, x: nat, y: nat): Option<Sprite> {
    match Registered(atlases, Source(cell, font))
    case None => None
    case Some(atlas) =>
      match GlyphOf(atlas, cell, x, y)
      case None => None
      case Some(glyph) => Some(Sprite(atlas.id, glyph))
  }

  function Naive(c: Console, font: nat, atlases: seq<Atlas>, x: nat, y: nat): seq<Sprite>
    requires x <= c.size.columns && y <= c.size.rows && (y == c.size.rows ==> x == 0)
    decreases y, x
  {
    if x > 0 then
      Naive(c, font, atlases, x - 1, y) + Listed(SpriteOf(font, atlases, At(c, x - 1, y), x - 1, y))
    else if y > 0 then Naive(c, font, atlases, c.size.columns, y - 1)
    else []
  }

  /** The sprites of one atlas, in the order they come. */
  function Only(sprites: seq<Sprite>, id: nat): seq<Glyph> {
    if sprites == [] then []
    else Only(sprites[..|sprites| - 1], id) +
         if sprites[|sprites| - 1].atlas == id then [sprites[|sprites| - 1].glyph] else []
  }

  /** A tileset is what stands at its address, however often it is registered. */
  ghost predicate Coherent(atlases: seq<Atlas>) {
    forall i, j | 0 <= i < |atlases| && 0 <= j < |atlases| && atlases[i].id == atlases[j].id :: atlases[i] == atlases[j]
  }

  /** How often a tileset is registered. */
  function Times(atlases: seq<Atlas>, id: nat): nat {
    if atlases == [] then 0 else (if atlases[0].id == id then 1 else 0) + Times(atlases[1..], id)
  }

  lemma {:induction false} TimesRegistered(atlases: seq<Atlas>, id: nat)
    ensures Times(atlases, id) > 0 <==> Registered(atlases, id).Some?
  {
    if atlases != [] {
      TimesRegistered(atlases[1..], id);
    }
  }

  lemma {:induction false} RegisteredIs(atlases: seq<Atlas>, id: nat)
    requires Coherent(atlases)
    ensures Registered(atlases, id).None? <==> forall p | 0 <= p < |atlases| :: atlases[p].id != id
    ensures forall p | 0 <= p < |atlases| && atlases[p].id == id :: Registered(atlases, id) == Some(atlases[p])
    ensures Registered(atlases, id).Some? ==> Registered(atlases, id).value.id == id
  {
    if atlases != [] {
      RegisteredIs(atlases[1..], id);
      assert forall p | 1 <= p < |atlases| :: atlases[p] == atlases[1..][p - 1];
    }
  }

  lemma OnlyPush(sprites: seq<Sprite>, o: Option<Sprite>, id: nat)
    ensures Only(sprites + Listed(o), id) ==
              Only(sprites, id) + if o.Some? && o.value.atlas == id then [o.value.glyph] else []
  {
    if o.Some? {
      assert (sprites + [o.value])[..|sprites|] == sprites;
    } else {
      assert sprites + [] == sprites;
    }
  }

  lemma CellPass(font: nat, atlases: seq<Atlas>, p: nat, cell: Cell, x: nat, y: nat)
    requires Coherent(atlases) && p < |atlases|
    ensures var o := SpriteOf(font, atlases, cell, x, y);
            Listed(InPass(font, atlases[p], cell, x, y)) ==
              if o.Some? && o.value.atlas == atlases[p].id then [o.value.glyph] else []
  {
    RegisteredIs(atlases, Source(cell, font));
  }

  /** A cell is drawn from the tileset it names, or else from the font, if that is registered. */
  lemma SpriteIs(font: nat, atlases: seq<Atlas>, p: nat, cell: Cell, x: nat, y: nat)
    requires Coherent(atlases) && p < |atlases|
    requires atlases[p].id == if cell.tileset.Some? then cell.tileset.value else font
    ensures SpriteOf(font, atlases, cell, x, y) ==
              match GlyphOf(atlases[p], cell, x, y) case None => None case Some(g) => Some(Sprite(atlases[p].id, g))
  {
    RegisteredIs(atlases, atlases[p].id);
  }

  /** What is drawn at (x, y), among glyphs in row-major order. */
  ghost predicate InOrder(glyphs: seq<Glyph>) {
    forall i, j | 0 <= i < j < |glyphs| ::
      glyphs[i].y < glyphs[j].y || (glyphs[i].y == glyphs[j].y && glyphs[i].x < glyphs[j].x)
  }

  /** Before (x, y) in row-major order. */
  predicate Precedes(a: nat, b: nat, x: nat, y: nat) {
    b < y || (b == y && a < x)
  }

  /** Every glyph of the list is of a cell before (x, y), and the list is in row-major order. */
  ghost predicate Ranked(glyphs: seq<Glyph>, x: nat, y: nat) {
    InOrder(glyphs) && forall i | 0 <= i < |glyphs| :: Precedes(glyphs[i].x, glyphs[i].y, x, y)
  }

  lemma RankedNext(glyphs: seq<Glyph>, o: Option<Glyph>, x: nat, y: nat)
    requires Ranked(glyphs, x, y) && (o.Some? ==> o.value.x == x && o.value.y == y)
    ensures Ranked(glyphs + Listed(o), x + 1, y)
  {
  }

  /** The pass emits each drawn cell once, in row-major order: a later cell is never drawn under an earlier one. */
  lemma {:induction false} PassRanked(c: Console, font: nat, atlas: Atlas, x: nat, y: nat)
    requires x <= c.size.columns && y <= c.size.rows && (y == c.size.rows ==> x == 0)
    ensures Ranked(PassGlyphs(c, font, atlas, x, y), x, y)
    decreases y, x
  {
    if x > 0 {
      PassRanked(c, font, atlas, x - 1, y);
      RankedNext(PassGlyphs(c, font, atlas, x - 1, y), InPass(font, atlas, At(c, x - 1, y), x - 1, y), x - 1, y);
    } else if y > 0 {
      PassRanked(c, font, atlas, c.size.columns, y - 1);
    }
  }

  lemma {:induction false} BackgroundsRanked(c: Console, x: nat, y: nat)
    requires x <= c.size.columns && y <= c.size.rows && (y == c.size.rows ==> x == 0)
    ensures Ranked(Backgrounds(c, x, y), x, y)
    decreases y, x
  {
    if x > 0 {
      BackgroundsRanked(c, x - 1, y);
      RankedNext(Backgrounds(c, x - 1, y), BackgroundOf(At(c, x - 1, y), x - 1, y), x - 1, y);
    } else if y > 0 {
      BackgroundsRanked(c, c.size.columns, y - 1);
    }
  }

  /** The list draws the cell (a, b) once if it has a glyph, and not at all if it has none. */
  ghost predicate Draws(glyphs: seq<Glyph>, o: Option<Glyph>, a: nat, b: nat) {
    (o.Some? ==> o.value in glyphs) &&
    forall i | 0 <= i < |glyphs| && glyphs[i].x == a && glyphs[i].y == b :: o == Some(glyphs[i])
  }

  lemma DrawsNext(glyphs: seq<Glyph>, o: Option<Glyph>, last: Option<Glyph>, x: nat, y: nat, a: nat, b: nat)
    requires last.Some? ==> last.value.x == x && last.value.y == y
    requires if a == x && b == y then o == last && Ranked(glyphs, x, y) else Draws(glyphs, o, a, b)
    ensures Draws(glyphs + Listed(last), o, a, b)
  {
    if o.Some? && o.value in glyphs {
      var i :| 0 <= i < |glyphs| && glyphs[i] == o.value;
      assert (glyphs + Listed(last))[i] == o.value;
    } else if o.Some? {
      assert (glyphs + Listed(last))[|glyphs|] == o.value;
    }
  }

  lemma {:induction false} PassDrawsCell(c: Console, font: nat, atlas: Atlas, x: nat, y: nat, a: nat, b: nat)
    requires x <= c.size.columns && y <= c.size.rows && (y == c.size.rows ==> x == 0)
    requires a < c.size.columns && b < c.size.rows && Precedes(a, b, x, y)
    ensures Draws(PassGlyphs(c, font, atlas, x, y), InPass(font, atlas, At(c, a, b), a, b), a, b)
    decreases y, x
  {
    if x == 0 {
      PassDrawsCell(c, font, atlas, c.size.columns, y - 1, a, b);
    } else {
      if a == x - 1 && b == y {
        PassRanked(c, font, atlas, x - 1, y);
      } else {
        PassDrawsCell(c, font, atlas, x - 1, y, a, b);
      }
      DrawsNext(PassGlyphs(c, font, atlas, x - 1, y), InPass(font, atlas, At(c, a, b), a, b),
                InPass(font, atlas, At(c, x - 1, y), x - 1, y), x - 1, y, a, b);
    }
  }

  lemma {:induction false} BackgroundsDraw(c: Console, x: nat, y: nat, a: nat, b: nat)
    requires x <= c.size.columns && y <= c.size.rows && (y == c.size.rows ==> x == 0)
    requires a < c.size.columns && b < c.size.rows && Precedes(a, b, x, y)
    ensures Draws(Backgrounds(c, x, y), BackgroundOf(At(c, a, b), a, b), a, b)
    decreases y, x
  {
    if x == 0 {
      BackgroundsDraw(c, c.size.columns, y - 1, a, b);
    } else {
      if a == x - 1 && b == y {
        BackgroundsRanked(c, x - 1, y);
      } else {
        BackgroundsDraw(c, x - 1, y, a, b);
      }
      DrawsNext(Backgrounds(c, x - 1, y), BackgroundOf(At(c, a, b), a, b),
                BackgroundOf(At(c, x - 1, y), x - 1, y), x - 1, y, a, b);
    }
  }

  /**
   A frame fills the background of every cell that has one, and an atlas's pass draws every cell that shows a tile of
   it: each once, in row-major order, and nothing for the other cells.
   */
  lemma EveryCellDrawn(c: Console, font: nat, atlas: Atlas, a: nat, b: nat)
    requires a < c.size.columns && b < c.size.rows
    ensures InOrder(Backgrounds(c, 0, c.size.rows)) && InOrder(Pass(c, font, atlas))
    ensures Draws(Backgrounds(c, 0, c.size.rows), BackgroundOf(At(c, a, b), a, b), a, b)
    ensures Draws(Pass(c, font, atlas), InPass(font, atlas, At(c, a, b), a, b), a, b)
  {
    BackgroundsRanked(c, 0, c.size.rows);
    BackgroundsDraw(c, 0, c.size.rows, a, b);
    PassRanked(c, font, atlas, 0, c.size.rows);
    PassDrawsCell(c, font, atlas, 0, c.size.rows, a, b);
  }

  /** A pass emits exactly the naive sprites of its atlas, in row-major order. */
  lemma {:induction false} PassIsNaive(c: Console, font: nat, atlases: seq<Atlas>, p: nat, x: nat, y: nat)
    requires Coherent(atlases) && p < |atlases|
    requires x <= c.size.columns && y <= c.size.rows && (y == c.size.rows ==> x == 0)
    ensures PassGlyphs(c, font, atlases[p], x, y) == Only(Naive(c, font, atlases, x, y), atlases[p].id)
    decreases y, x
  {
    if x > 0 {
      PassIsNaive(c, font, atlases, p, x - 1, y);
      var cell, before := At(c, x - 1, y), Naive(c, font, atlases, x - 1, y);
      CellPass(font, atlases, p, cell, x - 1, y);
      OnlyPush(before, SpriteOf(font, atlases, cell, x - 1, y), atlases[p].id);
    } else if y > 0 {
      PassIsNaive(c, font, atlases, p, c.size.columns, y - 1);
    }
  }

  /** Every naive sprite belongs to a registered atlas. */
  lemma {:induction false} NaiveRegistered(c: Console, font: nat, atlases: seq<Atlas>, x: nat, y: nat)
    requires Coherent(atlases)
    requires x <= c.size.columns && y <= c.size.rows && (y == c.size.rows ==> x == 0)
    ensures forall k | 0 <= k < |Naive(c, font, atlases, x, y)| ::
              Registered(atlases, Naive(c, font, atlases, x, y)[k].atlas).Some?
    decreases y, x
  {
    if x > 0 {
      NaiveRegistered(c, font, atlases, x - 1, y);
      RegisteredIs(atlases, Source(At(c, x - 1, y), font));
    } else if y > 0 {
      NaiveRegistered(c, font, atlases, c.size.columns, y - 1);
    }
  }

  /** How many glyphs all passes emit together. */
  function Emitted(sprites: seq<Sprite>, atlases: seq<Atlas>): nat {
    if atlases == [] then 0 else |Only(sprites, atlases[0].id)| + Emitted(sprites, atlases[1..])
  }

  lemma {:induction false} EmittedPush(sprites: seq<Sprite>, sprite: Sprite, atlases: seq<Atlas>)
    ensures Emitted(sprites + [sprite], atlases) == Emitted(sprites, atlases) + Times(atlases, sprite.atlas)
  {
    if atlases != [] {
      EmittedPush(sprites, sprite, atlases[1..]);
      OnlyPush(sprites, Some(sprite), atlases[0].id);
    }
  }

  /** Nothing is dropped, and nothing is drawn twice exactly when every sprite's tileset is registered once. */
  lemma {:induction false} EachOnce(sprites: seq<Sprite>, atlases: seq<Atlas>)
    requires forall k | 0 <= k < |sprites| :: Times(atlases, sprites[k].atlas) > 0
    ensures Emitted(sprites, atlases) >= |sprites|
    ensures Emitted(sprites, atlases) == |sprites| <==>
              forall k | 0 <= k < |sprites| :: Times(atlases, sprites[k].atlas) == 1
    decreases |sprites|
  {
    if sprites == [] {
      EmittedNone(atlases);
    } else {
      var last := |sprites| - 1;
      EachOnce(sprites[..last], atlases);
      EmittedPush(sprites[..last], sprites[last], atlases);
      assert sprites[..last] + [sprites[last]] == sprites;
    }
  }

  lemma {:induction false} EmittedNone(atlases: seq<Atlas>)
    ensures Emitted([], atlases) == 0
  {
    if atlases != [] {
      EmittedNone(atlases[1..]);
    }
  }

  /** Glyphs emitted by all passes of a frame. */
  function PassTotal(c: Console, font: nat, atlases: seq<Atlas>, n: nat): nat
    requires n <= |atlases|
    decreases |atlases| - n
  {
    if n == |atlases| then 0 else |Pass(c, font, atlases[n])| + PassTotal(c, font, atlases, n + 1)
  }

  lemma {:induction false} TotalIsEmitted(c: Console, font: nat, atlases: seq<Atlas>, n: nat)
    requires Coherent(atlases) && n <= |atlases|
    ensures PassTotal(c, font, atlases, n) == Emitted(Naive(c, font, atlases, 0, c.size.rows), atlases[n..])
    decreases |atlases| - n
  {
    if n < |atlases| {
      TotalIsEmitted(c, font, atlases, n + 1);
      PassIsNaive(c, font, atlases, n, 0, c.size.rows);
      assert atlases[n..][1..] == atlases[n + 1..];
    }
  }

  /**
   Every pass emits the naive sprites of its atlas, in the same order. All passes together are
   the naive rendering, split by atlas, if and only if no tileset that is drawn from is
   registered twice; otherwise they draw more.
   */
  lemma BatchingPreserves(c: Console, font: nat, atlases: seq<Atlas>)
    requires Coherent(atlases)
    ensures var naive := Naive(c, font, atlases, 0, c.size.rows);
            (forall p | 0 <= p < |atlases| :: Pass(c, font, atlases[p]) == Only(naive, atlases[p].id)) &&
            PassTotal(c, font, atlases, 0) >= |naive| &&
            (PassTotal(c, font, atlases, 0) == |naive| <==>
               forall k | 0 <= k < |naive| :: Times(atlases, naive[k].atlas) == 1)
  {
    var naive := Naive(c, font, atlases, 0, c.size.rows);
    forall p | 0 <= p < |atlases|
      ensures Pass(c, font, atlases[p]) == Only(naive, atlases[p].id)
    {
      PassIsNaive(c, font, atlases, p, 0, c.size.rows);
    }
    TotalIsEmitted(c, font, atlases, 0);
    assert atlases[0..] == atlases;
    NaiveRegistered(c, font, atlases, 0, c.size.rows);
    forall k | 0 <= k < |naive|
      ensures Times(atlases, naive[k].atlas) > 0
    {
      TimesRegistered(atlases, naive[k].atlas);
    }
    EachOnce(naive, atlases);
  }

  // ---------------------------------------------------------------- texture coordinates

  lemma StepTimes(a: nat, n: nat)
    requires n > 0
    ensures n as real * (1.0 / n as real) == 1.0
    ensures a < n ==> 0.0 <= a as real * (1.0 / n as real) && a as real * (1.0 / n as real) + 1.0 / n as real <= 1.0
  {
    var d := 1.0 / n as real;
    assert n as real * d == 1.0;
    if a < n {
      assert a as real * d + d == (a + 1) as real * d;
      assert (a + 1) as real * d <= n as real * d;
    }
  }

  /** A drawn tile samples a cell inside the sheet. */
  lemma TileInsideSheet(atlas: Atlas, s: Scale, g: Glyph)
    requires atlas.Usable() && g.tile < atlas.Count()
    ensures var q := TileQuad(atlas, s, g);
            0.0 <= q.u0 < q.u1 <= 1.0 && 0.0 <= q.v0 < q.v1 <= 1.0
  {
    RowBelow(g.tile / atlas.columns, g.tile % atlas.columns, atlas.columns, atlas.rows);
    StepTimes(g.tile % atlas.columns, atlas.columns);
    StepTimes(g.tile / atlas.columns, atlas.rows);
  }

  lemma PlacesDiffer(a: nat, b: nat, n: nat)
    requires n > 0 && a != b
    ensures a % n != b % n || a / n != b / n
  {
    assert a == (a / n) * n + a % n && b == (b / n) * n + b % n;
  }

  lemma StepsDiffer(a: nat, b: nat, d: real, u: real, v: real)
    requires a < b && d > 0.0 && u == a as real * d && v == b as real * d
    ensures u + d <= v
  {
    assert u + d == (a + 1) as real * d;
    assert (a + 1) as real * d <= b as real * d;
  }

  /** No two texture cells overlap. */
  predicate Apart(p: Quad, q: Quad) {
    p.u1 <= q.u0 || q.u1 <= p.u0 || p.v1 <= q.v0 || q.v1 <= p.v0
  }

  lemma CellsApart(s: Scale, g: Glyph, h: Glyph, i: nat, j: nat, k: nat, l: nat, du: real, dv: real)
    requires (i != j || k != l) && du > 0.0 && dv > 0.0
    ensures Apart(QuadAt(s, g, i, k, du, dv), QuadAt(s, h, j, l, du, dv))
  {
    var p, q := QuadAt(s, g, i, k, du, dv), QuadAt(s, h, j, l, du, dv);
    if i < j {
      StepsDiffer(i, j, du, p.u0, q.u0);
    } else if j < i {
      StepsDiffer(j, i, du, q.u0, p.u0);
    } else if k < l {
      StepsDiffer(k, l, dv, p.v0, q.v0);
    } else {
      StepsDiffer(l, k, dv, q.v0, p.v0);
    }
  }

  /** Different tiles sample different cells of the sheet. */
  lemma TilesApart(atlas: Atlas, s: Scale, g: Glyph, h: Glyph)
    requires atlas.Usable() && g.tile != h.tile
    ensures Apart(TileQuad(atlas, s, g), TileQuad(atlas, s, h))
  {
    var n := atlas.columns;
    PlacesDiffer(g.tile, h.tile, n);
    CellsApart(s, g, h, g.tile % n, h.tile % n, g.tile / n, h.tile / n, 1.0 / n as real, 1.0 / atlas.rows as real);
  }

  // ---------------------------------------------------------------- geometry

  /** Twice the signed area of the triangle of three vertices. */
  function Area2(a: seq<real>, b: seq<real>, c: seq<real>): real
    requires |a| == 12 && |b| == 12 && |c| == 12
  {
    (b[0] - a[0]) * (c[1] - a[1]) - (c[0] - a[0]) * (b[1] - a[1])
  }

  /** The quad of a glyph covers its cell, and samples the column and row of its tile in the sheet. */
  lemma TileQuadPlace(atlas: Atlas, s: Scale, g: Glyph, column: nat, row: nat)
    requires atlas.Usable() && column < atlas.columns && g.tile == row * atlas.columns + column
    ensures var q := TileQuad(atlas, s, g);
            q.x0 == g.x as real * s.width && q.x1 - q.x0 == s.width && q.y0 == g.y as real * s.height &&
            q.y1 - q.y0 == s.height && q.fg == g.fg && q.bg == g.bg &&
            q.u0 * atlas.columns as real == column as real && (q.u1 - q.u0) * atlas.columns as real == 1.0 &&
            q.v0 * atlas.rows as real == row as real && (q.v1 - q.v0) * atlas.rows as real == 1.0
  {
    QuotientIs(row, column, atlas.columns);
    StepTimes(0, atlas.columns);
    StepTimes(0, atlas.rows);
    Scaled(column, atlas.columns, 1.0 / atlas.columns as real);
    Scaled(row, atlas.rows, 1.0 / atlas.rows as real);
    NextEdge(g.x, s.width, g.x as real * s.width, (g.x + 1) as real * s.width);
    NextEdge(g.y, s.height, g.y as real * s.height, (g.y + 1) as real * s.height);
  }

  lemma Scaled(a: nat, n: nat, d: real)
    requires n as real * d == 1.0
    ensures a as real * d * n as real == a as real
  {
    assert a as real * d * n as real == a as real * (n as real * d);
  }

  /** Every vertex is a corner of the rectangle with the matching corner of the texture cell, in the quad's colours. */
  ghost predicate CornerOf(v: seq<real>, q: Quad)
    requires |v| == 12
  {
    v[4] * 255.0 == q.fg.r as real && v[5] * 255.0 == q.fg.g as real && v[6] * 255.0 == q.fg.b as real &&
    v[7] * 255.0 == q.fg.a as real && v[8] * 255.0 == q.bg.r as real && v[9] * 255.0 == q.bg.g as real &&
    v[10] * 255.0 == q.bg.b as real && v[11] * 255.0 == q.bg.a as real &&
    ((v[0] == q.x0 && v[2] == q.u0) || (v[0] == q.x1 && v[2] == q.u1)) &&
    ((v[1] == q.y0 && v[3] == q.v0) || (v[1] == q.y1 && v[3] == q.v1))
  }

  /** The two triangles of a quad turn the same way, share their diagonal and fill its rectangle. */
  lemma QuadFillsRectangle(q: Quad)
    ensures forall i | 0 <= i < 6 :: CornerOf(Vertex(q, i), q)
    ensures Vertex(q, 3) == Vertex(q, 0) && Vertex(q, 4) == Vertex(q, 2)
    ensures var first := Area2(Vertex(q, 0), Vertex(q, 1), Vertex(q, 2));
            var second := Area2(Vertex(q, 3), Vertex(q, 4), Vertex(q, 5));
            first == second == (q.x1 - q.x0) * (q.y1 - q.y0)
  {
    var w, h := q.x1 - q.x0, q.y1 - q.y0;
    assert Area2(Vertex(q, 0), Vertex(q, 1), Vertex(q, 2)) == w * h - w * 0.0;
    assert Area2(Vertex(q, 3), Vertex(q, 4), Vertex(q, 5)) == w * h - 0.0 * h;
  }

  /** Quads of different cells do not overlap, whatever they show. */
  lemma CellQuadsApart(s: Scale, g: Glyph, h: Glyph, p: Quad, q: Quad)
    requires (g.x != h.x || g.y != h.y) && s.width > 0.0 && s.height > 0.0
    requires p == PlacedQuad(s, g, p.u0, p.v0, p.u1, p.v1) && q == PlacedQuad(s, h, q.u0, q.v0, q.u1, q.v1)
    ensures p.x1 <= q.x0 || q.x1 <= p.x0 || p.y1 <= q.y0 || q.y1 <= p.y0
  {
    if g.x != h.x {
      EdgesApart(g.x, h.x, s.width, p.x0, p.x1, q.x0, q.x1);
    } else {
      EdgesApart(g.y, h.y, s.height, p.y0, p.y1, q.y0, q.y1);
    }
  }

  lemma EdgesApart(a: nat, b: nat, d: real, a0: real, a1: real, b0: real, b1: real)
    requires a != b && d > 0.0
    requires a0 == a as real * d && a1 == (a + 1) as real * d && b0 == b as real * d && b1 == (b + 1) as real * d
    ensures a1 <= b0 || b1 <= a0
  {
    NextEdge(a, d, a0, a1);
    NextEdge(b, d, b0, b1);
    if a < b {
      StepsDiffer(a, b, d, a0, b0);
    } else {
      StepsDiffer(b, a, d, b0, a0);
    }
  }

  lemma NextEdge(a: nat, d: real, u: real, v: real)
    requires u == a as real * d && v == (a + 1) as real * d
    ensures v == u + d
  {
  }

  // ---------------------------------------------------------------- the renderer

  /** One call of the graphics backend. */
  datatype Draw = Draw(floats: seq<real>, textured: bool, atlas: Option<nat>)

  function BackgroundDraw(c: Console, s: Scale): Draw {
    Draw(Floats(Plain(s), Backgrounds(c, 0, c.size.rows)), false, None)
  }

  function PassDraws(c: Console, s: Scale, font: nat, atlases: seq<Atlas>): seq<Draw> {
    if atlases == [] then []
    else PassDraws(c, s, font, atlases[..|atlases| - 1]) +
         AtlasDraw(c, s, font, atlases[|atlases| - 1])
  }

  function AtlasDraw(c: Console, s: Scale, font: nat, atlas: Atlas): seq<Draw> {
    if atlas.Usable() then [Draw(Floats(Textured(atlas, s), Pass(c, font, atlas)), true, Some(atlas.id))] else []
  }

  lemma PassDrawsNext(c: Console, s: Scale, font: nat, atlases: seq<Atlas>, before: seq<Draw>, n: nat)
    requires n < |atlases|
    ensures before + PassDraws(c, s, font, atlases[..n]) + AtlasDraw(c, s, font, atlases[n]) ==
              before + PassDraws(c, s, font, atlases[..n + 1])
  {
    assert atlases[..n + 1][..n] == atlases[..n];
    ConcatAssoc(before, PassDraws(c, s, font, atlases[..n]), AtlasDraw(c, s, font, atlases[n]));
  }

  lemma WholeVertices(cursor: nat, quads: nat)
    requires cursor == 72 * quads
    ensures 12 * (cursor / 12) == cursor
  {
    QuotientIs(6 * quads, 0, 12);
  }

  class Renderer {
    var vertices: array<real>
    var draws: seq<Draw>

    /** The buffer up to the cursor holds exactly these glyphs. */
    ghost predicate Written(cursor: nat, paint: Painter, glyphs: seq<Glyph>)
      reads this, vertices
    {
      cursor == 72 * |glyphs| <= vertices.Length && vertices[..cursor] == Floats(paint, glyphs)
    }

    constructor ()
      ensures draws == [] && fresh(vertices)
    {
      vertices := new real[0];
      draws := [];
    }

    method Reserve(cells: nat)
      modifies this`vertices
      ensures vertices.Length >= 72 * cells
      ensures vertices == old(vertices) || fresh(vertices)
    {
      var needed := cells * 6 * 12;
      if needed > vertices.Length {
        vertices := new real[needed];
      }
    }

    method EmitQuad(cursor: nat, q: Quad) returns (out: nat)
      requires cursor + 72 <= vertices.Length
      modifies vertices
      ensures out == cursor + 72
      ensures vertices[..out] == old(vertices[..cursor]) + Vertices(q, 6)
    {
      out := cursor;
      for i := 0 to 6
        invariant out == cursor + 12 * i
        invariant vertices[..out] == old(vertices[..cursor]) + Vertices(q, i)
      {
        out := EmitVertex(out, Vertex(q, i));
      }
    }

    method EmitVertex(cursor: nat, vertex: seq<real>) returns (out: nat)
      requires |vertex| == 12 && cursor + 12 <= vertices.Length
      modifies vertices
      ensures out == cursor + 12
      ensures vertices[..out] == old(vertices[..cursor]) + vertex
    {
      out := cursor;
      for i := 0 to 12
        invariant out == cursor + i
        invariant vertices[..out] == old(vertices[..cursor]) + vertex[..i]
      {
        vertices[out] := vertex[i];
        out := out + 1;
      }
    }

    /** The calls one frame makes, whatever the console holds; the buffer is never overrun. */
    method RenderConsole(c: Console, font: nat, atlases: seq<Atlas>, s: Scale)
      modifies this, vertices
      ensures draws == old(draws) + [BackgroundDraw(c, s)] + PassDraws(c, s, font, atlases)
    {
      RowStartIs(c.size.columns, c.size.rows);
      Reserve(c.size.columns * c.size.rows);
      RenderBackgrounds(c, Plain(s));
      for pass := 0 to |atlases|
        invariant vertices.Length >= 72 * |c.cells|
        invariant vertices == old(vertices) || fresh(vertices)
        invariant draws == old(draws) + [BackgroundDraw(c, s)] + PassDraws(c, s, font, atlases[..pass])
      {
        PassDrawsNext(c, s, font, atlases, old(draws) + [BackgroundDraw(c, s)], pass);
        if atlases[pass].Usable() {
          RenderPass(c, font, atlases[pass], Textured(atlases[pass], s));
        }
      }
      assert atlases[..|atlases|] == atlases;
    }

    /** Hands over the vertices written so far, counted in whole vertices. */
    method Submit(cursor: nat, textured: bool, atlas: Option<nat>, ghost quads: nat)
      requires cursor == 72 * quads <= vertices.Length
      modifies this`draws
      ensures draws == old(draws) + [Draw(vertices[..cursor], textured, atlas)]
    {
      var count := cursor / 12;
      WholeVertices(cursor, quads);
      draws := draws + [Draw(vertices[..12 * count], textured, atlas)];
    }

    method RenderBackgrounds(c: Console, paint: Painter)
      requires vertices.Length >= 72 * |c.cells|
      modifies this`draws, vertices
      ensures draws == old(draws) + [Draw(Floats(paint, Backgrounds(c, 0, c.size.rows)), false, None)]
    {
      var cursor := 0;
      for y := 0 to c.size.rows
        invariant draws == old(draws) && Written(cursor, paint, Backgrounds(c, 0, y))
      {
        cursor := RenderBackgroundRow(cursor, c, paint, y);
      }
      Submit(cursor, false, None, |Backgrounds(c, 0, c.size.rows)|);
    }

    method RenderBackgroundRow(start: nat, c: Console, paint: Painter, y: nat) returns (cursor: nat)
      requires y < c.size.rows && vertices.Length >= 72 * |c.cells| && Written(start, paint, Backgrounds(c, 0, y))
      modifies vertices
      ensures Written(cursor, paint, Backgrounds(c, 0, y + 1))
    {
      cursor := start;
      for x := 0 to c.size.columns
        invariant Written(cursor, paint, Backgrounds(c, x, y))
      {
        var cell := CellAt(c, x, y);
        BackgroundsNext(c, x, y);
        cursor := RenderBackground(cursor, cell, paint, x, y, Backgrounds(c, x, y));
      }
    }

    method RenderPass(c: Console, font: nat, atlas: Atlas, paint: Painter)
      requires atlas.Usable() && vertices.Length >= 72 * |c.cells|
      modifies this`draws, vertices
      ensures draws == old(draws) + [Draw(Floats(paint, Pass(c, font, atlas)), true, Some(atlas.id))]
    {
      var cursor := 0;
      for y := 0 to c.size.rows
        invariant draws == old(draws) && Written(cursor, paint, PassGlyphs(c, font, atlas, 0, y))
      {
        cursor := RenderPassRow(cursor, c, font, atlas, paint, y);
      }
      Submit(cursor, true, Some(atlas.id), |Pass(c, font, atlas)|);
    }

    method RenderPassRow(start: nat, c: Console, font: nat, atlas: Atlas, paint: Painter, y: nat) returns (cursor: nat)
      requires y < c.size.rows && vertices.Length >= 72 * |c.cells| && atlas.Usable()
      requires Written(start, paint, PassGlyphs(c, font, atlas, 0, y))
      modifies vertices
      ensures Written(cursor, paint, PassGlyphs(c, font, atlas, 0, y + 1))
    {
      cursor := start;
      for x := 0 to c.size.columns
        invariant Written(cursor, paint, PassGlyphs(c, font, atlas, x, y))
      {
        var cell := CellAt(c, x, y);
        PassNext(c, font, atlas, x, y);
        cursor := RenderCell(cursor, cell, font, atlas, paint, x, y, PassGlyphs(c, font, atlas, x, y));
      }
    }

    method RenderBackground(cursor: nat, cell: Cell, paint: Painter, x: nat, y: nat, ghost before: seq<Glyph>)
      returns (out: nat)
      requires Written(cursor, paint, before) && 72 * (|before| + 1) <= vertices.Length
      modifies vertices
      ensures Written(out, paint, before + Listed(BackgroundOf(cell, x, y)))
    {
      assert before + [] == before;
      if cell.bg.a == 0 {
        return cursor;
      }
      out := Emit(cursor, paint, Glyph(x, y, 0, cell.fg, cell.bg), before);
    }

    /** One cell of a pass: nothing, or one quad. */
    method RenderCell(cursor: nat, cell: Cell, font: nat, atlas: Atlas, paint: Painter, x: nat, y: nat,
                      ghost before: seq<Glyph>)
      returns (out: nat)
      requires atlas.Usable() && Written(cursor, paint, before) && 72 * (|before| + 1) <= vertices.Length
      modifies vertices
      ensures Written(out, paint, before + Listed(InPass(font, atlas, cell, x, y)))
    {
      assert before + [] == before;
      var source := if cell.tileset.Some? then cell.tileset.value else font;
      if source != atlas.id || cell.fg.a == 0 {
        return cursor;
      }
      var index;
      if cell.tileset.Some? {
        index := ToInt(cell.glyph);
      } else {
        if cell.glyph == 0x20 || cell.glyph == 0 {
          return cursor;
        }
        index := atlas.IndexFor(cell.glyph);
        if index < 0 {
          index := atlas.IndexFor(0x3F);
        }
        if index < 0 {
          return cursor;
        }
      }
      if index < 0 || index >= atlas.Count() {
        return cursor;
      }
      out := Emit(cursor, paint, Glyph(x, y, index, cell.fg, cell.bg), before);
    }

    method Emit(cursor: nat, paint: Painter, g: Glyph, ghost before: seq<Glyph>) returns (out: nat)
      requires Written(cursor, paint, before) && 72 * (|before| + 1) <= vertices.Length
      modifies vertices
      ensures Written(out, paint, before + [g])
    {
      FloatsPush(paint, before, g);
      out := EmitQuad(cursor, paint(g));
    }
  }
}
