/** Cells of the dungeon map, and connection by orthogonal steps. */
module Grid {

  const MAP_W: int := 60
  const MAP_H: int := 36

  datatype Cell = Cell(x: int, y: int)

  predicate InMap(c: Cell) {
    0 <= c.x < MAP_W && 0 <= c.y < MAP_H
  }

  predicate Interior(c: Cell) {
    0 < c.x < MAP_W - 1 && 0 < c.y < MAP_H - 1
  }

  predicate Adjacent(a: Cell, b: Cell) {
    (a.x == b.x && (a.y == b.y + 1 || b.y == a.y + 1)) || (a.y == b.y && (a.x == b.x + 1 || b.x == a.x + 1))
  }

  ghost predicate IsPath(floor: set<Cell>, path: seq<Cell>, a: Cell, b: Cell) {
    |path| > 0 && path[0] == a && path[|path| - 1] == b &&
    (forall i | 0 <= i < |path| :: path[i] in floor) &&
    (forall i | 0 <= i < |path| - 1 :: Adjacent(path[i], path[i + 1]))
  }

  ghost predicate Connected(floor: set<Cell>, a: Cell, b: Cell) {
    exists path :: IsPath(floor, path, a, b)
  }

  lemma ConnectedSelf(floor: set<Cell>, a: Cell)
    requires a in floor
    ensures Connected(floor, a, a)
  {
    assert IsPath(floor, [a], a, a);
  }

  lemma ConnectedNext(floor: set<Cell>, a: Cell, b: Cell)
    requires a in floor && b in floor && Adjacent(a, b)
    ensures Connected(floor, a, b)
  {
    assert IsPath(floor, [a, b], a, b);
  }

  lemma ConnectedTrans(floor: set<Cell>, a: Cell, b: Cell, c: Cell)
    requires Connected(floor, a, b) && Connected(floor, b, c)
    ensures Connected(floor, a, c)
  {
    var p :| IsPath(floor, p, a, b);
    var q :| IsPath(floor, q, b, c);
    var r := p + q[1..];
    forall i | 0 <= i < |r| - 1
      ensures Adjacent(r[i], r[i + 1])
    {
      if i == |p| - 1 {
        assert r[i] == q[0] && r[i + 1] == q[1];
      } else if i >= |p| {
        assert r[i] == q[i - |p| + 1] && r[i + 1] == q[i - |p| + 2];
      }
    }
    assert IsPath(floor, r, a, c);
  }

  lemma ConnectedGrows(floor: set<Cell>, more: set<Cell>, a: Cell, b: Cell)
    requires floor <= more && Connected(floor, a, b)
    ensures Connected(more, a, b)
  {
    var p :| IsPath(floor, p, a, b);
    assert IsPath(more, p, a, b);
  }

  function Distance(a: int, b: int): nat {
    if a < b then b - a else a - b
  }

  predicate Between(v: int, a: int, b: int) {
    a <= v <= b || b <= v <= a
  }

  lemma {:induction false} RowConnected(floor: set<Cell>, y: int, x0: int, x1: int)
    requires forall x | Between(x, x0, x1) :: Cell(x, y) in floor
    ensures Connected(floor, Cell(x0, y), Cell(x1, y))
    decreases if x0 < x1 then x1 - x0 else x0 - x1
  {
    assert Between(x0, x0, x1);
    if x0 == x1 {
      ConnectedSelf(floor, Cell(x0, y));
    } else {
      var next := if x1 > x0 then x0 + 1 else x0 - 1;
      assert Between(next, x0, x1);
      RowConnected(floor, y, next, x1);
      ConnectedNext(floor, Cell(x0, y), Cell(next, y));
      ConnectedTrans(floor, Cell(x0, y), Cell(next, y), Cell(x1, y));
    }
  }

  lemma {:induction false} ColumnConnected(floor: set<Cell>, x: int, y0: int, y1: int)
    requires forall y | Between(y, y0, y1) :: Cell(x, y) in floor
    ensures Connected(floor, Cell(x, y0), Cell(x, y1))
    decreases if y0 < y1 then y1 - y0 else y0 - y1
  {
    assert Between(y0, y0, y1);
    if y0 == y1 {
      ConnectedSelf(floor, Cell(x, y0));
    } else {
      var next := if y1 > y0 then y0 + 1 else y0 - 1;
      assert Between(next, y0, y1);
      ColumnConnected(floor, x, next, y1);
      ConnectedNext(floor, Cell(x, y0), Cell(x, next));
      ConnectedTrans(floor, Cell(x, y0), Cell(x, next), Cell(x, y1));
    }
  }

  // ---------------------------------------------------------------- rooms and corridors

  datatype Room = Room(x: int, y: int, w: int, h: int)

  predicate InRoom(r: Room, c: Cell) {
    r.x <= c.x < r.x + r.w && r.y <= c.y < r.y + r.h
  }

  /** Rooms as they are rolled: inside the border, at least five by three. */
  predicate Rolled(r: Room) {
    5 <= r.w <= 12 && 3 <= r.h <= 7 && 1 <= r.x && r.x + r.w <= MAP_W - 2 && 1 <= r.y && r.y + r.h <= MAP_H - 2
  }

  /** As many columns to the left of the centre as to the right of it, or one more; rows likewise. */
  function Centre(r: Room): (c: Cell)
    ensures r.w > 0 ==> 0 <= (c.x - r.x) - (r.x + r.w - 1 - c.x) <= 1
    ensures r.h > 0 ==> 0 <= (c.y - r.y) - (r.y + r.h - 1 - c.y) <= 1
  {
    Cell(r.x + r.w / 2, r.y + r.h / 2)
  }

  /** The overlap test, which also keeps a wall between rooms. */
  predicate TooClose(a: Room, b: Room) {
    a.x < b.x + b.w + 1 && a.x + a.w + 1 > b.x && a.y < b.y + b.h + 1 && a.y + a.h + 1 > b.y
  }

  ghost predicate Disjoint(a: Room, b: Room) {
    forall c :: !(InRoom(a, c) && InRoom(b, c))
  }

  /** The bend of a corridor is on the row it starts from. */
  predicate InCorridor(a: Cell, b: Cell, c: Cell) {
    (c.y == a.y && Between(c.x, a.x, b.x)) || (c.x == b.x && Between(c.y, a.y, b.y))
  }

  lemma RoomConnected(floor: set<Cell>, r: Room, c: Cell)
    requires Rolled(r) && InRoom(r, c) && forall d | InRoom(r, d) :: d in floor
    ensures Connected(floor, Centre(r), c)
  {
    var m := Centre(r);
    forall x | Between(x, m.x, c.x) ensures Cell(x, m.y) in floor {
      assert InRoom(r, Cell(x, m.y));
    }
    forall y | Between(y, m.y, c.y) ensures Cell(c.x, y) in floor {
      assert InRoom(r, Cell(c.x, y));
    }
    RowConnected(floor, m.y, m.x, c.x);
    ColumnConnected(floor, c.x, m.y, c.y);
    ConnectedTrans(floor, m, Cell(c.x, m.y), c);
  }

  lemma CorridorConnected(floor: set<Cell>, a: Cell, b: Cell, c: Cell)
    requires InCorridor(a, b, c) && forall d | InCorridor(a, b, d) :: d in floor
    ensures Connected(floor, a, c)
  {
    if c.y == a.y && Between(c.x, a.x, b.x) {
      forall x | Between(x, a.x, c.x) ensures Cell(x, a.y) in floor {
        assert InCorridor(a, b, Cell(x, a.y));
      }
      RowConnected(floor, a.y, a.x, c.x);
    } else {
      forall x | Between(x, a.x, b.x) ensures Cell(x, a.y) in floor {
        assert InCorridor(a, b, Cell(x, a.y));
      }
      forall y | Between(y, a.y, c.y) ensures Cell(b.x, y) in floor {
        assert InCorridor(a, b, Cell(b.x, y));
      }
      RowConnected(floor, a.y, a.x, b.x);
      ColumnConnected(floor, b.x, a.y, c.y);
      ConnectedTrans(floor, a, Cell(b.x, a.y), c);
    }
  }

  /** Carving a room and a corridor to it keeps everything reachable from the start. */
  lemma StillConnected(before: set<Cell>, after: set<Cell>, start: Cell, from: Cell, r: Room)
    requires Rolled(r) && start in before && from in before
    requires forall c | c in before :: Connected(before, start, c)
    requires before <= after
    requires forall c :: c in after <==> c in before || InRoom(r, c) || InCorridor(from, Centre(r), c)
    ensures forall c | c in after :: Connected(after, start, c)
  {
    ConnectedGrows(before, after, start, from);
    forall c | InCorridor(from, Centre(r), c)
      ensures Connected(after, start, c)
    {
      CorridorConnected(after, from, Centre(r), c);
      ConnectedTrans(after, start, from, c);
    }
    assert InCorridor(from, Centre(r), Centre(r));
    forall c | c in after
      ensures Connected(after, start, c)
    {
      if c in before {
        ConnectedGrows(before, after, start, c);
      } else if InRoom(r, c) {
        RoomConnected(after, r, c);
        ConnectedTrans(after, start, Centre(r), c);
      }
    }
  }

  lemma FarRoomsDisjoint(a: Room, b: Room)
    requires !TooClose(a, b)
    ensures Disjoint(a, b)
  {
  }

  /** Rooms are too close exactly when two of their cells are the same or neighbours, also diagonally. */
  lemma TooCloseIff(a: Room, b: Room)
    requires a.w > 0 && a.h > 0 && b.w > 0 && b.h > 0
    ensures TooClose(a, b) <==>
              exists c, d :: InRoom(a, c) && InRoom(b, d) && -1 <= c.x - d.x <= 1 && -1 <= c.y - d.y <= 1
  {
    if TooClose(a, b) {
      var (cx, dx) := Nearest(a.x, a.w, b.x, b.w);
      var (cy, dy) := Nearest(a.y, a.h, b.y, b.h);
      assert InRoom(a, Cell(cx, cy)) && InRoom(b, Cell(dx, dy));
    }
  }

  /** Two points of overlapping or touching intervals that are at most one apart. */
  function Nearest(a: int, n: int, b: int, m: int): (r: (int, int))
    requires n > 0 && m > 0 && a < b + m + 1 && a + n + 1 > b
    ensures a <= r.0 < a + n && b <= r.1 < b + m && -1 <= r.0 - r.1 <= 1
  {
    if a >= b then (a, if a < b + m then a else b + m - 1) else (if b < a + n then b else a + n - 1, b)
  }

  /** The k-th cell on the way from `a` to `b`: first along the row of `a`, then along the column of `b`. */
  function OnWay(a: Cell, b: Cell, k: nat): Cell {
    var across := Distance(a.x, b.x);
    if k <= across then Cell(if a.x < b.x then a.x + k else a.x - k, a.y)
    else Cell(b.x, if a.y < b.y then a.y + (k - across) else a.y - (k - across))
  }

  /** A corridor is the cells of that way, from one end to the other, and no others. */
  lemma CorridorIsWay(a: Cell, b: Cell, c: Cell)
    ensures var last := Distance(a.x, b.x) + Distance(a.y, b.y);
            (InCorridor(a, b, c) <==> exists k: nat :: k <= last && OnWay(a, b, k) == c) &&
            OnWay(a, b, 0) == a && OnWay(a, b, last) == b
  {
    if InCorridor(a, b, c) {
      var k := if c.y == a.y && Between(c.x, a.x, b.x) then Distance(a.x, c.x)
               else Distance(a.x, b.x) + Distance(a.y, c.y);
      assert OnWay(a, b, k) == c;
    }
  }
}
