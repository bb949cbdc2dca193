/** Level generation and the turn loop of the roguelike example. */
module Dungeon {
  import opened Grid
  import opened Options

  const MAX_ROOMS: int := 14
  const MAX_MONSTERS: int := 24

  datatype Monster = Monster(at: Cell, hp: int, glyph: char, alive: bool)

  // ---------------------------------------------------------------- monsters, on values

  function Sign(a: int, b: int): int {
    if a > b then 1 else if a < b then -1 else 0
  }

  /** The cell a monster steps to: one step towards the player, also diagonally. */
  function Towards(from: Cell, player: Cell): Cell {
    Cell(from.x + Sign(player.x, from.x), from.y + Sign(player.y, from.y))
  }

  function MonsterFrom(ms: seq<Monster>, c: Cell, i: nat): (r: Option<nat>)
    requires i <= |ms|
    ensures r.Some? ==> i <= r.value < |ms| && ms[r.value].alive && ms[r.value].at == c
    ensures r.Some? ==> forall j | i <= j < r.value :: !(ms[j].alive && ms[j].at == c)
    ensures r.None? <==> forall j | i <= j < |ms| :: !(ms[j].alive && ms[j].at == c)
    decreases |ms| - i
  {
    if i == |ms| then None
    else if ms[i].alive && ms[i].at == c then Some(i)
    else MonsterFrom(ms, c, i + 1)
  }

  predicate Acts(m: Monster, visible: set<Cell>) {
    m.alive && m.at in visible
  }

  /** The turn of monster `i`. */
  function ActOne(floor: set<Cell>, visible: set<Cell>, player: Cell, ms: seq<Monster>, i: nat): (r: seq<Monster>)
    requires i < |ms|
    ensures |r| == |ms|
  {
    var m := ms[i];
    var to := Towards(m.at, player);
    if Acts(m, visible) && to != player && to in floor && MonsterFrom(ms, to, 0).None?
    then ms[i := m.(at := to)]
    else ms
  }

  function Bites(visible: set<Cell>, player: Cell, m: Monster): nat {
    if Acts(m, visible) && Towards(m.at, player) == player then 1 else 0
  }

  function ActFrom(floor: set<Cell>, visible: set<Cell>, player: Cell, ms: seq<Monster>, i: nat): (r: seq<Monster>)
    requires i <= |ms|
    ensures |r| == |ms|
    decreases |ms| - i
  {
    if i == |ms| then ms else ActFrom(floor, visible, player, ActOne(floor, visible, player, ms, i), i + 1)
  }

  function BitesFrom(floor: set<Cell>, visible: set<Cell>, player: Cell, ms: seq<Monster>, i: nat): nat
    requires i <= |ms|
    decreases |ms| - i
  {
    if i == |ms| then 0
    else Bites(visible, player, ms[i]) + BitesFrom(floor, visible, player, ActOne(floor, visible, player, ms, i), i + 1)
  }

  /** Living monsters stand on floor and not on the player. */
  ghost predicate Safe(floor: set<Cell>, player: Cell, ms: seq<Monster>) {
    forall j | 0 <= j < |ms| && ms[j].alive :: ms[j].at in floor && ms[j].at != player
  }

  /** Only the places of living monsters differ. */
  ghost predicate SameButPlaces(a: seq<Monster>, b: seq<Monster>) {
    |a| == |b| && forall j | 0 <= j < |a| :: b[j] == a[j].(at := b[j].at) && (!a[j].alive ==> b[j] == a[j])
  }

  /** Two living monsters that share a cell afterwards shared that very cell before. */
  ghost predicate NoNewSharing(a: seq<Monster>, b: seq<Monster>) {
    |a| == |b| &&
    forall i, j | 0 <= i < j < |b| && b[i].alive && b[j].alive && b[i].at == b[j].at ::
      a[i].alive && a[j].alive && a[i].at == b[i].at && a[j].at == b[j].at
  }

  /** Moving all monsters keeps them safe and never moves one onto another. */
  lemma {:induction false} ActSafely(floor: set<Cell>, visible: set<Cell>, player: Cell, ms: seq<Monster>, i: nat)
    requires i <= |ms| && Safe(floor, player, ms)
    ensures var after := ActFrom(floor, visible, player, ms, i);
            Safe(floor, player, after) && SameButPlaces(ms, after) && NoNewSharing(ms, after)
    decreases |ms| - i
  {
    if i < |ms| {
      var next := ActOne(floor, visible, player, ms, i);
      assert Safe(floor, player, next) && SameButPlaces(ms, next) && NoNewSharing(ms, next);
      ActSafely(floor, visible, player, next, i + 1);
      var after := ActFrom(floor, visible, player, ms, i);
      forall j | 0 <= j < |ms|
        ensures after[j] == ms[j].(at := after[j].at) && (!ms[j].alive ==> after[j] == ms[j])
      {
        assert after[j] == next[j].(at := after[j].at);
      }
    }
  }

  // ---------------------------------------------------------------- a turn, cell by cell

  /** The same cell or one of its eight neighbours. */
  predicate Beside(a: Cell, b: Cell) {
    Distance(a.x, b.x) <= 1 && Distance(a.y, b.y) <= 1
  }

  /** One nearer to the goal, or at it already. */
  predicate Nearer(v: int, to: int, goal: int) {
    if v == goal then to == v else Distance(v, to) == 1 && Distance(to, goal) + 1 == Distance(v, goal)
  }

  /** Each coordinate one nearer to the player's, or equal already. */
  predicate StepsNearer(from: Cell, to: Cell, player: Cell) {
    Nearer(from.x, to.x, player.x) && Nearer(from.y, to.y, player.y)
  }

  lemma TowardsNearer(from: Cell, to: Cell, player: Cell)
    ensures StepsNearer(from, to, player) <==> to == Towards(from, player)
    ensures Beside(from, player) <==> Towards(from, player) == player
  {
  }

  /**
   The turn of a monster: dead or out of view it does nothing; beside the player it bites once and stays; otherwise it
   stands on the cell one nearer, exactly when that is floor and no living monster is there.
   */
  ghost predicate Turned(floor: set<Cell>, visible: set<Cell>, player: Cell, ms: seq<Monster>, i: nat,
                         after: seq<Monster>, bites: nat)
    requires i < |ms|
  {
    var m := ms[i];
    if !m.alive || m.at !in visible then after == ms && bites == 0
    else if Beside(m.at, player) then after == ms && bites == 1
    else
      bites == 0 &&
      forall to | StepsNearer(m.at, to, player) ::
        if to in floor && forall k | 0 <= k < |ms| :: !(ms[k].alive && ms[k].at == to)
        then after == ms[i := m.(at := to)]
        else after == ms
  }

  lemma TurnOf(floor: set<Cell>, visible: set<Cell>, player: Cell, ms: seq<Monster>, i: nat)
    requires i < |ms|
    ensures Turned(floor, visible, player, ms, i, ActOne(floor, visible, player, ms, i), Bites(visible, player, ms[i]))
  {
    forall to ensures StepsNearer(ms[i].at, to, player) <==> to == Towards(ms[i].at, player) {
      TowardsNearer(ms[i].at, to, player);
    }
    TowardsNearer(ms[i].at, ms[i].at, player);
  }

  /** There is such a cell, and stepping to it brings the monster nearer in every direction it is away. */
  lemma StepExists(from: Cell, player: Cell) returns (to: Cell)
    ensures StepsNearer(from, to, player) && forall c | StepsNearer(from, c, player) :: c == to
    ensures !Beside(from, player) ==>
              Distance(to.x, player.x) + Distance(to.y, player.y) <
                Distance(from.x, player.x) + Distance(from.y, player.y)
  {
    to := Towards(from, player);
  }

  /** The monsters when it is monster `j`'s turn. */
  function ActUpTo(floor: set<Cell>, visible: set<Cell>, player: Cell, ms: seq<Monster>, j: nat): (r: seq<Monster>)
    requires j <= |ms|
    ensures |r| == |ms|
  {
    if j == 0 then ms else ActOne(floor, visible, player, ActUpTo(floor, visible, player, ms, j - 1), j - 1)
  }

  lemma {:induction false} ActFromUpTo(floor: set<Cell>, visible: set<Cell>, player: Cell, ms: seq<Monster>, j: nat)
    requires j <= |ms|
    ensures ActFrom(floor, visible, player, ActUpTo(floor, visible, player, ms, j), j)
            == ActFrom(floor, visible, player, ms, 0)
    decreases j
  {
    if j > 0 {
      ActFromUpTo(floor, visible, player, ms, j - 1);
    }
  }

  /** The turns of the others leave a monster where it is. */
  lemma {:induction false} OnlyItself(floor: set<Cell>, visible: set<Cell>, player: Cell, ms: seq<Monster>, i: nat,
                                      j: nat)
    requires j < i <= |ms|
    ensures ActFrom(floor, visible, player, ms, i)[j] == ms[j]
    decreases |ms| - i
  {
    if i < |ms| {
      OnlyItself(floor, visible, player, ActOne(floor, visible, player, ms, i), i + 1, j);
    }
  }

  lemma {:induction false} NotYet(floor: set<Cell>, visible: set<Cell>, player: Cell, ms: seq<Monster>, i: nat, j: nat)
    requires i <= j < |ms|
    ensures ActUpTo(floor, visible, player, ms, i)[j] == ms[j]
    decreases i
  {
    if i > 0 {
      NotYet(floor, visible, player, ms, i - 1, j);
    }
  }

  /** After all have acted, each monster stands where its own turn, from the place it had before, left it. */
  lemma ActOnce(floor: set<Cell>, visible: set<Cell>, player: Cell, ms: seq<Monster>, j: nat) returns (bites: nat)
    requires j < |ms|
    ensures var now := ActUpTo(floor, visible, player, ms, j);
            now[j] == ms[j] &&
            Turned(floor, visible, player, now, j, now[j := ActFrom(floor, visible, player, ms, 0)[j]], bites)
  {
    var now := ActUpTo(floor, visible, player, ms, j);
    var next := ActOne(floor, visible, player, now, j);
    NotYet(floor, visible, player, ms, j, j);
    ActFromUpTo(floor, visible, player, ms, j + 1);
    OnlyItself(floor, visible, player, next, j + 1, j);
    TurnOf(floor, visible, player, now, j);
    assert next == now[j := next[j]];
    bites := Bites(visible, player, now[j]);
  }

  ghost predicate Biter(visible: set<Cell>, player: Cell, m: Monster) {
    m.alive && m.at in visible && Beside(m.at, player)
  }

  /** The monsters from `i` on that are alive, in view and beside the player. */
  ghost function Biters(visible: set<Cell>, player: Cell, ms: seq<Monster>, i: nat): set<nat> {
    set j: nat | i <= j < |ms| && Biter(visible, player, ms[j])
  }

  lemma BitersNext(visible: set<Cell>, player: Cell, ms: seq<Monster>, i: nat)
    requires i < |ms|
    ensures |Biters(visible, player, ms, i)| ==
              |Biters(visible, player, ms, i + 1)| + if Biter(visible, player, ms[i]) then 1 else 0
  {
    var more := Biters(visible, player, ms, i + 1);
    assert Biters(visible, player, ms, i) == if Biter(visible, player, ms[i]) then more + {i} else more;
  }

  /** A round costs one hit point for each living visible monster beside the player, wherever the others step. */
  lemma {:induction false} BitesAreBiters(floor: set<Cell>, visible: set<Cell>, player: Cell, ms: seq<Monster>, i: nat)
    requires i <= |ms|
    ensures BitesFrom(floor, visible, player, ms, i) == |Biters(visible, player, ms, i)|
    decreases |ms| - i
  {
    if i == |ms| {
      assert Biters(visible, player, ms, i) == {};
    } else {
      var next := ActOne(floor, visible, player, ms, i);
      BitesAreBiters(floor, visible, player, next, i + 1);
      assert Biters(visible, player, next, i + 1) == Biters(visible, player, ms, i + 1);
      BitersNext(visible, player, ms, i);
      TowardsNearer(ms[i].at, ms[i].at, player);
    }
  }

  /** Orcs, rats and kobolds, each unhurt. */
  predicate Fresh(m: Monster) {
    m.alive && ((m.glyph == 'o' && m.hp == 4) || (m.glyph == 'r' && m.hp == 2) || (m.glyph == 'k' && m.hp == 3))
  }

  ghost predicate InLaterRoom(rooms: seq<Room>, c: Cell) {
    exists i | 1 <= i < |rooms| :: InRoom(rooms[i], c)
  }

  // ---------------------------------------------------------------- the game

  /** A room from four rolls: width, height, column and row. */
  function RoomFrom(a: nat, b: nat, c: nat, d: nat): (r: Room)
    ensures Rolled(r)
  {
    var w, h := 5 + a % 8, 3 + b % 5;
    Room(1 + c % (MAP_W - w - 2), 1 + d % (MAP_H - h - 2), w, h)
  }

  /** Every room of five to twelve by three to seven cells inside the border can be rolled. */
  lemma EveryRoomRolled(r: Room)
    requires Rolled(r)
    ensures r.w >= 5 && r.h >= 3 && r.x >= 1 && r.y >= 1 && RoomFrom(r.w - 5, r.h - 3, r.x - 1, r.y - 1) == r
  {
    InRoll(r.w - 5, 8);
    InRoll(r.h - 3, 5);
    InRoll(r.x - 1, MAP_W - r.w - 2);
    InRoll(r.y - 1, MAP_H - r.h - 2);
  }

  lemma InRoll(v: nat, n: nat)
    requires v < n
    ensures v % n == v
  {
  }

  class Game {
    const walls: array2<bool>
    var visible: set<Cell>
    var monsters: seq<Monster>
    var player: Cell
    var hp: int
    var gold: int
    var turn: nat

    ghost predicate Sized()
    {
      walls.Length0 == MAP_H && walls.Length1 == MAP_W
    }

    ghost function Floor(): set<Cell>
      reads walls
      requires Sized()
    {
      set x, y | 0 <= x < MAP_W && 0 <= y < MAP_H && !walls[y, x] :: Cell(x, y)
    }

    /** What every turn relies on and keeps. */
    ghost predicate Playable()
      reads this, walls
    {
      Sized() && player in Floor() && (forall c | c in Floor() :: Interior(c)) && Safe(Floor(), player, monsters)
    }

    constructor ()
      ensures Sized() && fresh(walls)
    {
      walls := new bool[MAP_H, MAP_W];
      visible, monsters, player, hp, gold, turn := {}, [], Cell(0, 0), 20, 0, 0;
    }

    /** Any outcome of `rand()`. */
    method Rand() returns (r: nat) {
      r := *;
    }

    // -------------------------------------------------------------- carving

    method CarveRoom(r: Room)
      requires Sized()
      modifies walls
      ensures forall c :: c in Floor() <==>
                c in old(Floor()) || (r.x <= c.x < r.x + r.w && r.y <= c.y < r.y + r.h && Interior(c))
    {
      for iy := r.y to (if r.h > 0 then r.y + r.h else r.y)
        invariant forall c | InMap(c) ::
                    walls[c.y, c.x] == (old(walls[c.y, c.x]) && !(InRoom(r, c) && Interior(c) && c.y < iy))
      {
        for ix := r.x to (if r.w > 0 then r.x + r.w else r.x)
          invariant forall c | InMap(c) ::
                      walls[c.y, c.x] == (old(walls[c.y, c.x]) &&
                                          !(InRoom(r, c) && Interior(c) && (c.y < iy || (c.y == iy && c.x < ix))))
        {
          if ix > 0 && iy > 0 && ix < MAP_W - 1 && iy < MAP_H - 1 {
            walls[iy, ix] := false;
          }
        }
      }
    }

    method CarveCorridor(a: Cell, b: Cell)
      requires Sized() && InMap(a) && InMap(b)
      modifies walls
      ensures forall c :: c in Floor() <==> c in old(Floor()) || InCorridor(a, b, c)
    {
      var x, y := a.x, a.y;
      while x != b.x
        invariant Between(x, a.x, b.x)
        invariant forall c | InMap(c) ::
                    walls[c.y, c.x] == (old(walls[c.y, c.x]) && !(c.y == a.y && Between(c.x, a.x, x) && c.x != x))
        decreases if x < b.x then b.x - x else x - b.x
      {
        walls[y, x] := false;
        x := x + if b.x > x then 1 else -1;
      }
      while y != b.y
        invariant Between(y, a.y, b.y)
        invariant forall c | InMap(c) ::
                    walls[c.y, c.x] == (old(walls[c.y, c.x]) &&
                                        !(c.y == a.y && Between(c.x, a.x, b.x) && c.x != b.x) &&
                                        !(c.x == b.x && Between(c.y, a.y, y) && c.y != y))
        decreases if y < b.y then b.y - y else y - b.y
      {
        walls[y, x] := false;
        y := y + if b.y > y then 1 else -1;
      }
      walls[y, x] := false;
    }

    // -------------------------------------------------------------- generation

    /** Everything reachable, inside the border; rooms carved, apart from each other. */
    ghost predicate Level(rooms: seq<Room>)
      reads walls
    {
      Sized() && |rooms| <= MAX_ROOMS && (forall c | c in Floor() :: Interior(c)) &&
      (forall i | 0 <= i < |rooms| :: Rolled(rooms[i])) &&
      (forall i, c | 0 <= i < |rooms| && InRoom(rooms[i], c) :: c in Floor()) &&
      (forall i, j | 0 <= i < j < |rooms| :: !TooClose(rooms[j], rooms[i])) &&
      (rooms == [] ==> Floor() == {}) &&
      (rooms != [] ==>
         Centre(rooms[0]) in Floor() && forall c | c in Floor() :: Connected(Floor(), Centre(rooms[0]), c))
    }

    method FillWithWall()
      requires Sized()
      modifies walls, this`visible
      ensures Level([])
    {
      for y := 0 to MAP_H
        invariant forall c | InMap(c) && c.y < y :: walls[c.y, c.x]
      {
        for x := 0 to MAP_W
          invariant forall c | InMap(c) && (c.y < y || (c.y == y && c.x < x)) :: walls[c.y, c.x]
        {
          walls[y, x] := true;
        }
      }
      visible := {};
      assert Floor() == {};
    }

    method RollRoom() returns (r: Room)
      ensures Rolled(r)
    {
      var a := Rand();
      var b := Rand();
      var c := Rand();
      var d := Rand();
      r := RoomFrom(a, b, c, d);
    }

    method Overlaps(r: Room, rooms: seq<Room>) returns (overlaps: bool)
      ensures overlaps <==> exists i | 0 <= i < |rooms| :: TooClose(r, rooms[i])
    {
      overlaps := false;
      for i := 0 to |rooms|
        invariant forall k | 0 <= k < i :: !TooClose(r, rooms[k])
      {
        if TooClose(r, rooms[i]) {
          return true;
        }
      }
    }

    /** Carves an accepted room, and the corridor from the room before it. */
    method AddRoom(r: Room, rooms: seq<Room>)
      requires Level(rooms) && |rooms| < MAX_ROOMS && Rolled(r) && forall i | 0 <= i < |rooms| :: !TooClose(r, rooms[i])
      modifies walls
      ensures Level(rooms + [r])
      ensures forall c :: c in Floor() <==>
                c in old(Floor()) || InRoom(r, c) ||
                (rooms != [] && InCorridor(Centre(rooms[|rooms| - 1]), Centre(r), c))
    {
      ghost var before := Floor();
      CarveRoom(r);
      assert forall c | InRoom(r, c) :: Interior(c);
      if |rooms| > 0 {
        var from := Centre(rooms[|rooms| - 1]);
        assert InRoom(rooms[|rooms| - 1], from);
        CarveCorridor(from, Centre(r));
        StillConnected(before, Floor(), Centre(rooms[0]), from, r);
        CorridorInside(from, Centre(r));
      } else {
        assert InRoom(r, Centre(r));
        forall c | c in Floor() ensures Connected(Floor(), Centre(r), c) {
          RoomConnected(Floor(), r, c);
        }
      }
    }

    method CarveLevel() returns (rooms: seq<Room>)
      requires Sized()
      modifies walls, this`visible
      ensures Level(rooms) && rooms != []
    {
      FillWithWall();
      rooms := [];
      var attempt := 0;
      while attempt < 200 && |rooms| < MAX_ROOMS
        invariant Level(rooms) && attempt <= 200 && (attempt > 0 ==> rooms != [])
        decreases 200 - attempt
      {
        var r := RollRoom();
        var overlaps := Overlaps(r, rooms);
        if !overlaps {
          AddRoom(r, rooms);
          rooms := rooms + [r];
        }
        attempt := attempt + 1;
      }
    }

    method RollMonster(at: Cell) returns (m: Monster)
      ensures m.at == at && Fresh(m)
    {
      var a := Rand();
      var b := Rand();
      if a % 3 == 0 {
        m := Monster(at, 4, 'o', true);
      } else if b % 2 == 0 {
        m := Monster(at, 2, 'r', true);
      } else {
        m := Monster(at, 3, 'k', true);
      }
    }

    /** Every monster is unhurt, in a room other than the player's, on floor and not on the player. */
    ghost predicate Settled(rooms: seq<Room>)
      reads this, walls
    {
      Sized() && |monsters| <= MAX_MONSTERS && Safe(Floor(), player, monsters) &&
      forall j | 0 <= j < |monsters| :: Fresh(monsters[j]) && InLaterRoom(rooms, monsters[j].at)
    }

    method PlaceMonster(rooms: seq<Room>, i: nat)
      requires Level(rooms) && 1 <= i < |rooms| && player == Centre(rooms[0])
      requires Settled(rooms) && |monsters| < MAX_MONSTERS
      modifies this`monsters
      ensures Settled(rooms) && |monsters| == |old(monsters)| + 1 && old(monsters) <= monsters
      ensures Inhabited(rooms[i], monsters)
    {
      var b := Rand();
      var c := Rand();
      var at := Cell(rooms[i].x + b % rooms[i].w, rooms[i].y + c % rooms[i].h);
      assert InRoom(rooms[i], at) && InRoom(rooms[0], player);
      FarRoomsDisjoint(rooms[i], rooms[0]);
      var m := RollMonster(at);
      monsters := monsters + [m];
      assert InRoom(rooms[i], monsters[|monsters| - 1].at);
    }

    /** One or two monsters in a room, as long as there is space for them. */
    method FillRoom(rooms: seq<Room>, i: nat)
      requires Level(rooms) && 1 <= i < |rooms| && player == Centre(rooms[0])
      requires Settled(rooms) && |monsters| < MAX_MONSTERS
      modifies this`monsters
      ensures Settled(rooms) && old(monsters) <= monsters && 1 <= |monsters| - |old(monsters)| <= 2
      ensures Inhabited(rooms[i], monsters)
    {
      var a := Rand();
      var n := 1 + a % 2;
      while n > 0 && |monsters| < MAX_MONSTERS
        invariant 0 <= n <= 2 && Settled(rooms) && old(monsters) <= monsters
        invariant |monsters| + n == |old(monsters)| + 1 + a % 2
        invariant |monsters| > |old(monsters)| ==> Inhabited(rooms[i], monsters)
        decreases n
      {
        n := n - 1;
        PlaceMonster(rooms, i);
      }
    }

    /** Monsters in every room but the player's, as long as there is space for them. */
    method PlaceMonsters(rooms: seq<Room>)
      requires Level(rooms) && rooms != [] && player == Centre(rooms[0])
      modifies this`monsters
      ensures Settled(rooms) && |monsters| <= 2 * (|rooms| - 1)
      ensures |monsters| == MAX_MONSTERS || forall i | 1 <= i < |rooms| :: Inhabited(rooms[i], monsters)
    {
      monsters := [];
      var i := 1;
      while i < |rooms| && |monsters| < MAX_MONSTERS
        invariant 1 <= i <= |rooms| && Settled(rooms) && |monsters| <= 2 * (i - 1)
        invariant forall k | 1 <= k < i :: Inhabited(rooms[k], monsters)
        decreases |rooms| - i
      {
        ghost var before := monsters;
        FillRoom(rooms, i);
        forall k | 1 <= k < i ensures Inhabited(rooms[k], monsters) {
          StillInhabited(rooms[k], before, monsters);
        }
        i := i + 1;
      }
    }

    /** A new level: at least one room, all floor reachable from the player, and a safe start. */
    method GenerateMap() returns (rooms: seq<Room>)
      requires Sized()
      modifies walls, this`visible, this`player, this`monsters
      ensures Playable() && Level(rooms) && rooms != [] && player == Centre(rooms[0]) && Settled(rooms)
      ensures forall c | c in Floor() :: Connected(Floor(), player, c)
      ensures forall i, j | 0 <= i < j < |rooms| :: Disjoint(rooms[i], rooms[j])
      ensures |monsters| == MAX_MONSTERS || forall i | 1 <= i < |rooms| :: Inhabited(rooms[i], monsters)
    {
      rooms := CarveLevel();
      player := Centre(rooms[0]);
      PlaceMonsters(rooms);
      forall i, j | 0 <= i < j < |rooms| ensures Disjoint(rooms[i], rooms[j]) {
        FarRoomsDisjoint(rooms[j], rooms[i]);
      }
    }

    // -------------------------------------------------------------- turns

    /** The field of view is not modelled: any set of cells may come out as visible. */
    method UpdateFov()
      modifies this`visible
    {
      visible := *;
    }

    method MonsterAt(c: Cell) returns (r: Option<nat>)
      ensures r == MonsterFrom(monsters, c, 0)
    {
      r := None;
      for i := 0 to |monsters|
        invariant MonsterFrom(monsters, c, 0) == MonsterFrom(monsters, c, i)
      {
        if monsters[i].alive && monsters[i].at == c {
          return Some(i);
        }
      }
    }

    /** The turn of one monster: bite, step, or stay. */
    method ActMonster(i: nat)
      requires Playable() && i < |monsters|
      modifies this`monsters, this`hp
      ensures Playable() && monsters == ActOne(Floor(), visible, player, old(monsters), i)
      ensures hp == old(hp) - Bites(visible, player, old(monsters)[i]) && hp <= old(hp)
      ensures Turned(Floor(), visible, player, old(monsters), i, monsters, old(hp) - hp)
    {
      TurnOf(Floor(), visible, player, monsters, i);
      ActOneSafe(Floor(), visible, player, monsters, i);
      var m := monsters[i];
      if !m.alive || m.at !in visible {
        return;
      }
      var to := Cell(m.at.x + Sign(player.x, m.at.x), m.at.y + Sign(player.y, m.at.y));
      if to == player {
        hp := hp - 1;
        return;
      }
      assert Interior(m.at);
      if !walls[to.y, to.x] {
        var other := MonsterAt(to);
        if other.None? {
          monsters := monsters[i := m.(at := to)];
        }
      }
    }

    method MonstersAct()
      requires Playable()
      modifies this`monsters, this`hp
      ensures Playable() && monsters == ActFrom(Floor(), visible, player, old(monsters), 0)
      ensures hp == old(hp) - |Biters(visible, player, old(monsters), 0)|
    {
      BitesAreBiters(Floor(), visible, player, monsters, 0);
      for i := 0 to |monsters|
        invariant Playable() && |monsters| == |old(monsters)|
        invariant ActFrom(Floor(), visible, player, monsters, i) == ActFrom(Floor(), visible, player, old(monsters), 0)
        invariant hp - BitesFrom(Floor(), visible, player, monsters, i)
               == old(hp) - BitesFrom(Floor(), visible, player, old(monsters), 0)
      {
        ActMonster(i);
      }
    }

    /** Hits a monster; killing it pays five to fourteen gold. */
    method Strike(i: nat)
      requires Playable() && i < |monsters|
      modifies this`monsters, this`gold
      ensures Playable() && monsters == Struck(old(monsters), Some(i))
      ensures var m := old(monsters)[i];
              monsters == old(monsters)[i := m.(hp := m.hp - 1, alive := m.alive && m.hp > 1)]
      ensures if old(monsters)[i].hp <= 1 then 5 <= gold - old(gold) <= 14 else gold == old(gold)
    {
      var m := monsters[i].(hp := monsters[i].hp - 1);
      if m.hp <= 0 {
        m := m.(alive := false);
        var r := Rand();
        gold := gold + 5 + r % 10;
      }
      monsters := monsters[i := m];
    }

    /** One player turn; false when it cost nothing (off the map, or into a wall). */
    method TryMove(dx: int, dy: int) returns (acted: bool)
      requires Playable()
      modifies this`player, this`monsters, this`hp, this`gold, this`turn, this`visible
      ensures Playable() && Floor() == old(Floor())
      ensures var n := Cell(old(player).x + dx, old(player).y + dy);
              var target := MonsterFrom(old(monsters), n, 0);
              acted == (InMap(n) && (target.Some? || n in Floor())) &&
              turn == old(turn) + (if acted then 1 else 0) &&
              player == (if acted && target.None? then n else old(player)) &&
              (!acted ==> monsters == old(monsters) && hp == old(hp) && gold == old(gold)) &&
              (acted ==> monsters == ActFrom(Floor(), visible, player, Struck(old(monsters), target), 0)) &&
              (acted ==> hp == old(hp) - |Biters(visible, player, Struck(old(monsters), target), 0)|) &&
              (acted && target.Some? && old(monsters)[target.value].hp <= 1 ==> 5 <= gold - old(gold) <= 14) &&
              (target.None? || old(monsters)[target.value].hp > 1 ==> gold == old(gold))
    {
      var n := Cell(player.x + dx, player.y + dy);
      if n.x < 0 || n.y < 0 || n.x >= MAP_W || n.y >= MAP_H {
        return false;
      }
      var target := MonsterAt(n);
      if target.Some? {
        Strike(target.value);
      } else if walls[n.y, n.x] {
        return false;
      } else {
        player := n;
      }
      turn := turn + 1;
      UpdateFov();
      MonstersAct();
      acted := true;
    }

    /** A whole game: whatever is rolled and whatever is played, the level stays playable. */
    method Play(moves: seq<(int, int)>)
      requires Sized()
      modifies this, walls
      ensures Playable() && exists start :: start in Floor() && forall c | c in Floor() :: Connected(Floor(), start, c)
    {
      var rooms := GenerateMap();
      ghost var start := player;
      for i := 0 to |moves|
        invariant Playable() && start in Floor() && forall c | c in Floor() :: Connected(Floor(), start, c)
      {
        var acted := TryMove(moves[i].0, moves[i].1);
      }
    }
  }

  /** The blow that may kill the monster that was walked into. */
  function Struck(ms: seq<Monster>, target: Option<nat>): (r: seq<Monster>)
    requires target.Some? ==> target.value < |ms|
    ensures |r| == |ms|
  {
    if target.None? then ms
    else
      var m := ms[target.value];
      ms[target.value := m.(hp := m.hp - 1, alive := m.alive && m.hp > 1)]
  }

  /** Some monster is in the room. */
  ghost predicate Inhabited(r: Room, ms: seq<Monster>) {
    exists j | 0 <= j < |ms| :: InRoom(r, ms[j].at)
  }

  lemma StillInhabited(r: Room, before: seq<Monster>, after: seq<Monster>)
    requires before <= after && Inhabited(r, before)
    ensures Inhabited(r, after)
  {
    var j :| 0 <= j < |before| && InRoom(r, before[j].at);
    assert after[j] == before[j];
  }

  lemma ActOneSafe(floor: set<Cell>, visible: set<Cell>, player: Cell, ms: seq<Monster>, i: nat)
    requires i < |ms| && Safe(floor, player, ms)
    ensures Safe(floor, player, ActOne(floor, visible, player, ms, i))
  {
  }

  lemma CorridorInside(a: Cell, b: Cell)
    requires Interior(a) && Interior(b)
    ensures forall c | InCorridor(a, b, c) :: Interior(c)
  {
  }
}
