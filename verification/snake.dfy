/** The snake game: a body kept in an array and shifted in place, a screen updated cell by cell. */
module Snake {
  import opened Collections

  const VGA_W := 80
  const VGA_H := 25
  const PX := 1
  const PY := 2
  const PW := 78
  const PH := 21
  const MAX_LEN := 512

  datatype Pt = Pt(x: int, y: int)

  predicate InPlay(p: Pt) { PX <= p.x < PX + PW && PY <= p.y < PY + PH }

  /** Where a cell lies in the text buffer. */
  function Cell(p: Pt): int { p.y * VGA_W + p.x }

  function Towards(p: Pt, d: Pt): Pt { Pt(p.x + d.x, p.y + d.y) }

  predicate IsUnit(d: Pt) { d == Pt(0, -1) || d == Pt(0, 1) || d == Pt(-1, 0) || d == Pt(1, 0) }

  predicate Adjacent(p: Pt, q: Pt) {
    exists d: Pt | d in {Pt(0, -1), Pt(0, 1), Pt(-1, 0), Pt(1, 0)} :: p == Towards(q, d)
  }

  // ---- Steering ----

  datatype Turn = Turn(dir: Pt, quit: bool)

  predicate IsKey(key: char, lower: char, upper: char) { key == lower || key == upper }

  /** One key: turning back along the axis of travel is ignored. */
  function Steer(d: Pt, key: char): (t: Turn)
    requires IsUnit(d)
    ensures IsUnit(t.dir) && (t.dir != d ==> t.dir.x * d.x == 0 && t.dir.y * d.y == 0)
  {
    if IsKey(key, 'w', 'W') && d.y == 0 then Turn(Pt(0, -1), false)
    else if IsKey(key, 's', 'S') && d.y == 0 then Turn(Pt(0, 1), false)
    else if IsKey(key, 'a', 'A') && d.x == 0 then Turn(Pt(-1, 0), false)
    else if IsKey(key, 'd', 'D') && d.x == 0 then Turn(Pt(1, 0), false)
    else Turn(d, IsKey(key, 'q', 'Q'))
  }

  /** All the keys waiting, in order; nothing after a q is read. */
  function SteerAll(d: Pt, keys: seq<char>): (t: Turn)
    requires IsUnit(d)
    ensures IsUnit(t.dir)
    decreases |keys|
  {
    if keys == [] then Turn(d, false)
    else var t := Steer(d, keys[0]); if t.quit then t else SteerAll(t.dir, keys[1..])
  }

  /** The keys are read one after the other. */
  lemma {:induction false} SteerConcat(d: Pt, first: seq<char>, rest: seq<char>)
    requires IsUnit(d)
    ensures SteerAll(d, first + rest) ==
      if SteerAll(d, first).quit then SteerAll(d, first) else SteerAll(SteerAll(d, first).dir, rest)
    decreases |first|
  {
    if first == [] {
      assert first + rest == rest;
    } else {
      assert (first + rest)[0] == first[0] && (first + rest)[1..] == first[1..] + rest;
      var t := Steer(d, first[0]);
      if !t.quit { SteerConcat(t.dir, first[1..], rest); }
    }
  }

  /** The game is left exactly when there is a q among them. */
  lemma {:induction false} SteerQuits(d: Pt, keys: seq<char>)
    requires IsUnit(d)
    ensures SteerAll(d, keys).quit <==> exists i :: 0 <= i < |keys| && (keys[i] == 'q' || keys[i] == 'Q')
    decreases |keys|
  {
    if keys != [] {
      var t := Steer(d, keys[0]);
      if !t.quit { SteerQuits(t.dir, keys[1..]); }
      assert forall i :: 1 <= i < |keys| ==> keys[i] == keys[1..][i - 1];
    }
  }

  /** Where the head goes after one key: up, down, left or right by one cell of the screen, or on
      as before when that would be along the line of travel, or for any other key. */
  lemma OneKey(p: Pt, d: Pt, key: char)
    requires IsUnit(d)
    ensures Towards(p, SteerAll(d, [key]).dir) ==
      if (key == 'w' || key == 'W') && d.y == 0 then Pt(p.x, p.y - 1)
      else if (key == 's' || key == 'S') && d.y == 0 then Pt(p.x, p.y + 1)
      else if (key == 'a' || key == 'A') && d.x == 0 then Pt(p.x - 1, p.y)
      else if (key == 'd' || key == 'D') && d.x == 0 then Pt(p.x + 1, p.y)
      else Pt(p.x + d.x, p.y + d.y)
  {
    OneSteer(d, key);
  }

  lemma OneSteer(d: Pt, key: char)
    requires IsUnit(d)
    ensures SteerAll(d, [key]).dir == Steer(d, key).dir
  {
    hide Steer;
    assert [key][1..] == [];
  }

  // ---- The body ----

  ghost predicate Connected(body: seq<Pt>) {
    forall i, j :: 0 <= i < j < |body| && j == i + 1 ==> Adjacent(body[i], body[j])
  }

  ghost predicate GoodBody(body: seq<Pt>) {
    && 3 <= |body| <= MAX_LEN && Distinct(body) && Connected(body) && forall i :: 0 <= i < |body| ==> InPlay(body[i])
  }

  /** The new head in front; the last cell goes unless the snake grows. */
  function Moved(body: seq<Pt>, head: Pt, grow: bool): (r: seq<Pt>)
    requires |body| > 0
    ensures |r| == if grow then |body| + 1 else |body|
  {
    [head] + if grow then body else body[..|body| - 1]
  }

  /** Skipping the tail in the collision test is sound for a snake that does not grow; one
      that grows must not run into its tail either. */
  lemma MovedDistinct(body: seq<Pt>, head: Pt, grow: bool)
    requires |body| > 0 && Distinct(body)
    ensures Distinct(Moved(body, head, grow)) <==>
            head !in body[..|body| - 1] && (grow ==> head != body[|body| - 1])
  {
    var r := Moved(body, head, grow);
    assert forall i :: 0 < i < |r| ==> r[i] == body[i - 1];
    if Distinct(r) {
      var rest := body[..|body| - 1];
      forall i | 0 <= i < |rest| ensures rest[i] != head { assert r[i + 1] == rest[i] && r[0] == head; }
      if grow { assert r[|body|] == body[|body| - 1] && r[0] == head; }
    }
  }

  lemma MovedConnected(body: seq<Pt>, head: Pt, grow: bool, d: Pt)
    requires |body| > 0 && Connected(body) && IsUnit(d) && head == Towards(body[0], d)
    ensures Connected(Moved(body, head, grow))
  {
    var r := Moved(body, head, grow);
    forall i, j | 0 <= i < j < |r| && j == i + 1 ensures Adjacent(r[i], r[j]) {
      if i == 0 { assert r[1] == body[0] || |r| == 1; } else { assert Adjacent(body[i - 1], body[j - 1]); }
    }
  }

  // ---- A free cell for the food ----

  function Nth(k: nat): Pt { Pt(PX + k % PW, PY + k / PW) }

  ghost function FirstCells(n: nat): set<Pt> { set k | 0 <= k < n :: Nth(k) }

  lemma {:induction false} FirstCellsCount(n: nat)
    ensures |FirstCells(n)| == n
  {
    if n > 0 {
      FirstCellsCount(n - 1);
      forall k | 0 <= k < n - 1 ensures Nth(k) != Nth(n - 1) {
        assert k % PW != (n - 1) % PW || k / PW != (n - 1) / PW;
      }
      assert FirstCells(n) == FirstCells(n - 1) + {Nth(n - 1)};
    }
  }

  /** However long the snake, there is room for food. */
  lemma FreeCell(body: seq<Pt>)
    requires |body| < PW * PH
    ensures exists p :: InPlay(p) && p !in body
  {
    var cells := FirstCells(PW * PH);
    FirstCellsCount(PW * PH);
    DistinctCount(body);
    if forall p :: InPlay(p) ==> p in body {
      forall p | p in cells ensures p in Elements(body) {
        var k :| 0 <= k < PW * PH && Nth(k) == p;
        assert InPlay(p);
      }
      SubsetCount(cells, Elements(body));
    }
  }

  // ---- The screen ----

  /** Every cell of the play area shows what is there. */
  ghost predicate Drawn(screen: seq<char>, body: seq<Pt>, food: Pt) {
    && |screen| == VGA_W * VGA_H
    && forall p :: InPlay(p) ==> 0 <= Cell(p) < |screen| && ShownAt(screen, p) == Look(body, food, p)
  }

  function ShownAt(screen: seq<char>, p: Pt): char
    requires 0 <= Cell(p) < |screen|
  {
    screen[Cell(p)]
  }

  function Look(body: seq<Pt>, food: Pt, p: Pt): char {
    if p in body then '#' else if p == food then '*' else ' '
  }

  function Put(screen: seq<char>, p: Pt, c: char): (r: seq<char>)
    requires |screen| == VGA_W * VGA_H && InPlay(p)
    ensures |r| == |screen|
    ensures forall q :: InPlay(q) ==>
      0 <= Cell(q) < |screen| && ShownAt(r, q) == if q == p then c else ShownAt(screen, q)
  {
    assert forall q :: InPlay(q) && q != p ==> Cell(q) != Cell(p);
    screen[Cell(p) := c]
  }

  /** What one tick writes. */
  function Redrawn(screen: seq<char>, tail: Pt, head: Pt, ate: bool, food: Pt): seq<char>
    requires |screen| == VGA_W * VGA_H && InPlay(tail) && InPlay(head) && InPlay(food)
  {
    var erased := if ate then screen else Put(screen, tail, ' ');
    var moved := Put(erased, head, '#');
    if ate then Put(moved, food, '*') else moved
  }

  /** Which cells the body covers after a move. */
  lemma InMoved(body: seq<Pt>, head: Pt, grow: bool, p: Pt)
    requires |body| > 0 && Distinct(body)
    ensures p in Moved(body, head, grow) <==> p == head || (p in body && (grow || p != body[|body| - 1]))
  {
    var front, tail := body[..|body| - 1], body[|body| - 1];
    assert body == front + [tail];
    assert tail !in front;
  }

  /** The screen agrees with the body after a tick exactly when the snake could grow, or did
      not eat, or the new food happens to cover the forgotten tail. */
  lemma TickDrawn(screen: seq<char>, body: seq<Pt>, food: Pt, head: Pt, ate: bool, food': Pt)
    requires GoodBody(body) && InPlay(food) && food !in body && Drawn(screen, body, food)
    requires InPlay(head) && head !in body[..|body| - 1] && (ate <==> head == food)
    requires InPlay(food') && (!ate ==> food' == food)
    requires food' !in Moved(body, head, ate && |body| < MAX_LEN)
    ensures var tail := body[|body| - 1];
      Drawn(Redrawn(screen, tail, head, ate, food'), Moved(body, head, ate && |body| < MAX_LEN), food') <==>
      !ate || |body| < MAX_LEN || food' == tail
  {
    var tail := body[|body| - 1];
    var grow := ate && |body| < MAX_LEN;
    var screen' := Redrawn(screen, tail, head, ate, food');
    forall p | InPlay(p) && (p != tail || !ate || grow || food' == tail)
      ensures ShownAt(screen', p) == Look(Moved(body, head, grow), food', p)
    {
      TickCell(screen, body, food, head, ate, food', p);
    }
    if ate && !grow && food' != tail {
      TickCell(screen, body, food, head, ate, food', tail);
    }
  }

  /** One cell of the play area after a tick. */
  lemma TickCell(screen: seq<char>, body: seq<Pt>, food: Pt, head: Pt, ate: bool, food': Pt, p: Pt)
    requires GoodBody(body) && InPlay(food) && food !in body && Drawn(screen, body, food)
    requires InPlay(head) && head !in body[..|body| - 1] && (ate <==> head == food)
    requires InPlay(food') && (!ate ==> food' == food) && InPlay(p)
    requires food' !in Moved(body, head, ate && |body| < MAX_LEN)
    ensures var tail := body[|body| - 1];
      (ShownAt(Redrawn(screen, tail, head, ate, food'), p) ==
         Look(Moved(body, head, ate && |body| < MAX_LEN), food', p)) <==>
      p != tail || !ate || |body| < MAX_LEN || food' == tail
  {
    hide Moved, Distinct, Connected;
    var tail := body[|body| - 1];
    assert tail in body;
    InMoved(body, head, ate && |body| < MAX_LEN, p);
    InMoved(body, head, ate && |body| < MAX_LEN, food');
    assert ShownAt(screen, p) == Look(body, food, p);
  }

  /** The cell p is outside columns 1 to 78 and rows 2 to 22, or one of the body's but not its tail. */
  predicate Ends(body: seq<Pt>, p: Pt)
    requires |body| > 0
  {
    p.x < 1 || p.x > 78 || p.y < 2 || p.y > 22 || exists i :: 0 <= i < |body| - 1 && body[i] == p
  }

  lemma BlockedEnds(body: seq<Pt>, p: Pt)
    requires |body| > 0
    ensures Blocked(body, p) <==> Ends(body, p)
  {
    if p in body[..|body| - 1] {
      var i :| 0 <= i < |body| - 1 && body[..|body| - 1][i] == p;
      assert body[i] == p;
    } else {
      assert forall i :: 0 <= i < |body| - 1 ==> body[i] == body[..|body| - 1][i];
    }
  }

  lemma HeadInFront(body: seq<Pt>, head: Pt, grow: bool)
    requires |body| > 0
    ensures |Moved(body, head, grow)| > 0 && Moved(body, head, grow)[0] == head
  {
  }

  /** The character at row y and column x of a screen of 80 columns. */
  predicate ShowsAt(screen: seq<char>, p: Pt, c: char) {
    0 <= 80 * p.y + p.x < |screen| && screen[80 * p.y + p.x] == c
  }

  /** What one tick leaves where the head, the old tail and the food are. */
  lemma RedrawnShows(screen: seq<char>, tail: Pt, head: Pt, ate: bool, food: Pt)
    requires |screen| == VGA_W * VGA_H && InPlay(tail) && InPlay(head) && InPlay(food)
    requires ate ==> food != head
    ensures var r := Redrawn(screen, tail, head, ate, food);
      && ShowsAt(r, head, '#') && (!ate && tail != head ==> ShowsAt(r, tail, ' ')) && (ate ==> ShowsAt(r, food, '*'))
  {
    hide Put;
    var erased := if ate then screen else Put(screen, tail, ' ');
    var moved := Put(erased, head, '#');
    assert ShownAt(moved, head) == '#' && (!ate && tail != head ==> ShownAt(moved, tail) == ' ');
  }

  // ---- The game ----

  datatype Outcome = Playing | Over | Quit

  /** The wall, or a cell of the body other than the tail, is in the way. */
  predicate Blocked(body: seq<Pt>, head: Pt)
    requires |body| > 0
  {
    !InPlay(head) || head in body[..|body| - 1]
  }

  datatype State = State(body: seq<Pt>, dir: Pt, food: Pt, cells: seq<char>)

  ghost predicate GoodState(s: State) {
    GoodBody(s.body) && IsUnit(s.dir) && InPlay(s.food) && s.food !in s.body
  }

  ghost predicate Start(s: State) {
    && s.body == [Pt(40, 12), Pt(39, 12), Pt(38, 12)] && s.dir == Pt(1, 0)
    && InPlay(s.food) && s.food !in s.body && Drawn(s.cells, s.body, s.food)
  }

  /** The snake reaches the food when the keys have been read. */
  predicate Eats(s: State, keys: seq<char>)
    requires |s.body| > 0 && IsUnit(s.dir)
  {
    Towards(s.body[0], SteerAll(s.dir, keys).dir) == s.food
  }

  /** A tick after which the game goes on. */
  ghost predicate Plays(a: State, keys: seq<char>, b: State) {
    && |a.body| > 0 && IsUnit(a.dir) && |a.cells| == VGA_W * VGA_H && InPlay(a.body[|a.body| - 1]) && InPlay(b.food)
    && b.dir == SteerAll(a.dir, keys).dir && !SteerAll(a.dir, keys).quit
    && var head := Towards(a.body[0], b.dir);
      && !Blocked(a.body, head)
      && b.body == Moved(a.body, head, Eats(a, keys) && |a.body| < MAX_LEN)
      && b.cells == Redrawn(a.cells, a.body[|a.body| - 1], head, Eats(a, keys), b.food)
      && if Eats(a, keys) then b.food !in b.body else b.food == a.food
  }

  lemma PlaysGood(a: State, keys: seq<char>, b: State)
    requires GoodState(a) && Plays(a, keys, b)
    ensures GoodState(b)
  {
    var head, grow := Towards(a.body[0], b.dir), Eats(a, keys) && |a.body| < MAX_LEN;
    MovedGood(a.body, head, grow, b.dir);
    InMoved(a.body, head, grow, b.food);
  }

  /** The snake eats when it is already as long as it can be. */
  predicate EatsInVain(s: State, keys: seq<char>)
    requires |s.body| > 0 && IsUnit(s.dir)
  {
    Eats(s, keys) && |s.body| == MAX_LEN
  }

  /** From a faithful picture a tick makes a faithful picture, unless the snake ate in vain; then
      its old tail stays on the screen, save when the new food covers it. */
  lemma PlaysDrawn(a: State, keys: seq<char>, b: State)
    requires GoodState(a) && Plays(a, keys, b) && Drawn(a.cells, a.body, a.food)
    ensures Drawn(b.cells, b.body, b.food) <==> !EatsInVain(a, keys) || b.food == a.body[|a.body| - 1]
  {
    hide Drawn, Distinct, Connected, Moved, Redrawn, SteerAll;
    PlaysGood(a, keys, b);
    TickDrawn(a.cells, a.body, a.food, Towards(a.body[0], b.dir), Eats(a, keys), b.food);
  }

  ghost predicate IsRun(states: seq<State>, keys: seq<seq<char>>) {
    && |states| == |keys| + 1 && Start(states[0])
    && forall i, j :: 0 <= i < j < |states| && j == i + 1 ==> Plays(states[i], keys[i], states[j])
  }

  /** In every reachable state the body is distinct, connected, inside and short enough, and the
      food is off it. */
  lemma {:induction false} RunGood(states: seq<State>, keys: seq<seq<char>>, i: nat)
    requires IsRun(states, keys) && i < |states|
    ensures GoodState(states[i])
  {
    if i == 0 {
      StartGood(states[0]);
    } else {
      RunGood(states, keys, i - 1);
      assert Plays(states[i - 1], keys[i - 1], states[i]);
      PlaysGood(states[i - 1], keys[i - 1], states[i]);
    }
  }

  lemma StartGood(s: State)
    requires Start(s)
    ensures GoodState(s)
  {
    assert s.body[0] == Towards(s.body[1], Pt(1, 0)) && s.body[1] == Towards(s.body[2], Pt(1, 0));
  }

  /** Until the snake eats in vain, the screen shows exactly the body and the food. */
  lemma {:induction false} RunDrawn(states: seq<State>, keys: seq<seq<char>>, i: nat)
    requires IsRun(states, keys) && i < |states|
    requires forall k :: 0 <= k < i ==> |states[k].body| > 0 && IsUnit(states[k].dir) && !EatsInVain(states[k], keys[k])
    ensures Drawn(states[i].cells, states[i].body, states[i].food)
  {
    if i > 0 {
      RunDrawn(states, keys, i - 1);
      RunGood(states, keys, i - 1);
      assert Plays(states[i - 1], keys[i - 1], states[i]) && !EatsInVain(states[i - 1], keys[i - 1]);
      PlaysDrawn(states[i - 1], keys[i - 1], states[i]);
    }
  }

  lemma FirstPicture(cells: seq<char>, body: seq<Pt>, food: Pt)
    requires |cells| == VGA_W * VGA_H && InPlay(food) && food !in body
    requires forall p :: InPlay(p) ==> 0 <= Cell(p) < |cells| && ShownAt(cells, p) == if p in body then '#' else ' '
    ensures Drawn(Put(cells, food, '*'), body, food)
  {
  }

  lemma BlankCells(cells: seq<char>)
    requires |cells| == VGA_W * VGA_H && forall k :: 0 <= k < |cells| ==> cells[k] == ' '
    ensures forall p :: InPlay(p) ==> 0 <= Cell(p) < |cells| && ShownAt(cells, p) == ' '
  {
  }

  class Game {
    const screen: array<char>
    const snake: array<Pt>
    var slen: nat
    var dir: Pt
    var food: Pt
    var score: int
    var speed: int

    ghost predicate Sized() { screen.Length == VGA_W * VGA_H && snake.Length == MAX_LEN }

    ghost function Body(): seq<Pt>
      reads this, snake
      requires slen <= snake.Length
    {
      snake[..slen]
    }

    ghost predicate Valid()
      reads this, snake
    {
      && Sized() && slen <= MAX_LEN && GoodBody(Body()) && IsUnit(dir)
      && InPlay(food) && food !in Body() && 60 - 4 < speed <= 130 && 0 <= score < 0x1_0000_0000
    }

    ghost function Now(): State
      reads this, snake, screen
      requires slen <= snake.Length
    {
      State(Body(), dir, food, screen[..])
    }

    /** A snake of three in the middle of the board, heading right. */
    constructor ()
      ensures Valid() && fresh(screen) && fresh(snake) && Start(Now())
      ensures Body() == [Pt(40, 12), Pt(39, 12), Pt(38, 12)] && dir == Pt(1, 0) && score == 0 && speed == 130
    {
      hide Drawn;
      var cells := new char[VGA_W * VGA_H](_ => ' ');
      var cx, cy := PX + PW / 2, PY + PH / 2;
      var body := new Pt[MAX_LEN](_ => Pt(0, 0));
      body[0], body[1], body[2] := Pt(cx, cy), Pt(cx - 1, cy), Pt(cx - 2, cy);
      screen, snake, slen, dir, score, speed := cells, body, 3, Pt(1, 0), 0, 130;
      food := Pt(0, 0);
      new;
      assert Body() == [Pt(40, 12), Pt(39, 12), Pt(38, 12)];
      BlankCells(screen[..]);
      FirstScreen();
      StartGood(Now());
    }

    /** The body, and the food off it, on a blank screen. */
    method FirstScreen()
      requires Sized() && slen == 3 && forall i :: 0 <= i < slen ==> InPlay(snake[i])
      requires forall p :: InPlay(p) ==> 0 <= Cell(p) < screen.Length && ShownAt(screen[..], p) == ' '
      modifies screen, this`food
      ensures InPlay(food) && food !in Body() && Drawn(screen[..], Body(), food)
    {
      hide Drawn, Put, InPlay, Cell;
      DrawBody();
      ghost var picture := screen[..];
      PlaceFood();
      DrawCell(food, '*');
      FirstPicture(picture, Body(), food);
    }

    /** The first picture: every cell of the body. */
    method DrawBody()
      requires Sized() && slen <= MAX_LEN && forall i :: 0 <= i < slen ==> InPlay(snake[i])
      requires forall p :: InPlay(p) ==> 0 <= Cell(p) < screen.Length && ShownAt(screen[..], p) == ' '
      modifies screen
      ensures forall p :: InPlay(p) ==>
        0 <= Cell(p) < screen.Length && ShownAt(screen[..], p) == if p in Body() then '#' else ' '
    {
      for i := 0 to slen
        invariant forall p :: InPlay(p) ==>
          0 <= Cell(p) < screen.Length && ShownAt(screen[..], p) == if p in Body()[..i] then '#' else ' '
      {
        assert Body()[..i + 1] == Body()[..i] + [snake[i]];
        DrawCell(snake[i], '#');
      }
      assert Body()[..slen] == Body();
    }

    /** vput, in the play area. */
    method DrawCell(p: Pt, c: char)
      requires Sized() && InPlay(p)
      modifies screen
      ensures screen[..] == Put(old(screen[..]), p, c)
    {
      screen[Cell(p)] := c;
    }

    /** Some cell off the body; the generator's choice is left open. */
    method PlaceFood()
      requires slen <= snake.Length == MAX_LEN
      modifies this`food
      ensures InPlay(food) && food !in Body()
    {
      FreeCell(Body());
      var fx, fy :| PX <= fx < PX + PW && PY <= fy < PY + PH && Pt(fx, fy) !in snake[..slen];
      food := Pt(fx, fy);
    }

    /** Drains the keys that wait. */
    method ReadKeys(keys: seq<char>) returns (quit: bool)
      requires IsUnit(dir)
      modifies this`dir
      ensures dir == SteerAll(old(dir), keys).dir && quit == SteerAll(old(dir), keys).quit
    {
      quit := false;
      for i := 0 to |keys|
        invariant IsUnit(dir) && !quit && SteerAll(dir, keys[i..]) == SteerAll(old(dir), keys)
      {
        assert keys[i..][0] == keys[i] && keys[i..][1..] == keys[i + 1..];
        var t := Steer(dir, keys[i]);
        dir := t.dir;
        if t.quit { return true; }
      }
    }

    /** The collision test looks at every cell but the tail. */
    method HitsBody(head: Pt) returns (dead: bool)
      requires 0 < slen <= snake.Length
      ensures dead <==> head in Body()[..slen - 1]
    {
      dead := false;
      for i := 0 to slen - 1
        invariant head !in Body()[..i]
      {
        if snake[i] == head { return true; }
      }
    }

    /** Moves every cell one slot back and puts the head in front. */
    method Shift(head: Pt)
      requires 0 < slen <= snake.Length
      modifies snake
      ensures Body() == [head] + old(Body())[..slen - 1]
    {
      var i := slen - 1;
      while i > 0
        invariant 0 <= i < slen
        invariant forall k :: 0 <= k <= i ==> snake[k] == old(snake[k])
        invariant forall k :: i < k < slen ==> snake[k] == old(snake[k - 1])
      {
        snake[i] := snake[i - 1];
        i := i - 1;
      }
      snake[0] := head;
    }

    /** Grows when it ate and there is room, then shifts. */
    method MoveBody(head: Pt, ate: bool)
      requires 0 < slen <= snake.Length == MAX_LEN
      modifies this`slen, snake
      ensures 0 < slen <= MAX_LEN && Body() == Moved(old(Body()), head, ate && old(slen) < MAX_LEN)
    {
      if ate && slen < MAX_LEN { slen := slen + 1; }
      Shift(head);
    }

    /** The tail is wiped unless the snake ate; then the head is drawn, and food is replaced. */
    method Redraw(oldTail: Pt, head: Pt, ate: bool)
      requires Sized() && slen <= MAX_LEN && InPlay(oldTail) && InPlay(head) && InPlay(food) && 0 <= score
      modifies this`food, this`score, this`speed, screen
      ensures InPlay(food) && screen[..] == Redrawn(old(screen[..]), oldTail, head, ate, food)
      ensures if ate then food !in Body() && score == (old(score) + 1) % 0x1_0000_0000 &&
                          speed == (if old(speed) > 60 then old(speed) - 4 else old(speed))
              else food == old(food) && score == old(score) && speed == old(speed)
    {
      if !ate { DrawCell(oldTail, ' '); }
      DrawCell(head, '#');
      if ate {
        score := (score + 1) % 0x1_0000_0000;
        if speed > 60 { speed := speed - 4; }
        PlaceFood();
        DrawCell(food, '*');
      }
    }

    /** One turn of the main loop. */
    method Tick(keys: seq<char>) returns (outcome: Outcome, ate: bool)
      requires Valid()
      modifies this, snake, screen
      ensures Valid() && dir == SteerAll(old(dir), keys).dir
      ensures outcome == Quit <==> SteerAll(old(dir), keys).quit
      ensures outcome == Quit <==> exists i :: 0 <= i < |keys| && (keys[i] == 'q' || keys[i] == 'Q')
      ensures outcome == Over <==>
        outcome != Quit && Ends(old(Body()), Pt(old(snake[0]).x + dir.x, old(snake[0]).y + dir.y))
      ensures outcome == Playing ==> snake[0] == Pt(old(snake[0]).x + dir.x, old(snake[0]).y + dir.y)
      ensures slen == old(slen) + (if ate && old(slen) < 512 then 1 else 0)
      ensures outcome == Playing ==> ShowsAt(screen[..], snake[0], '#')
      ensures outcome == Playing && !ate && old(snake[slen - 1]) != snake[0] ==>
        ShowsAt(screen[..], old(snake[slen - 1]), ' ')
      ensures ate ==> ShowsAt(screen[..], food, '*')
      ensures outcome == Over <==> !SteerAll(old(dir), keys).quit && Blocked(old(Body()), Towards(old(snake[0]), dir))
      ensures outcome != Playing ==> !ate && Body() == old(Body()) && screen[..] == old(screen[..])
      ensures outcome == Playing ==> Plays(old(Now()), keys, Now())
      ensures ate <==> outcome == Playing && Towards(old(snake[0]), dir) == old(food)
      ensures !ate ==> food == old(food) && score == old(score) && speed == old(speed)
      ensures ate ==> score == (old(score) + 1) % 0x1_0000_0000
      ensures ate ==> speed == if old(speed) > 60 then old(speed) - 4 else old(speed)
    {
      hide Drawn, Moved, Redrawn, Distinct, Connected, ShowsAt, Ends, SteerAll;
      ghost var body, d0, cells := Body(), dir, screen[..];
      SteerQuits(d0, keys);
      ate := false;
      var quit := ReadKeys(keys);
      if quit { return Quit, false; }
      var head := Towards(snake[0], dir);
      BlockedEnds(body, head);
      if head.x < PX || head.x >= PX + PW || head.y < PY || head.y >= PY + PH { return Over, false; }
      var dead := HitsBody(head);
      if dead { return Over, false; }
      ate := head == food;
      var oldTail := snake[slen - 1];
      assert oldTail == body[|body| - 1];
      MovedGood(body, head, ate && slen < MAX_LEN, dir);
      MoveBody(head, ate);
      Redraw(oldTail, head, ate);
      InMoved(body, head, ate && |body| < MAX_LEN, food);
      HeadInFront(body, head, ate && |body| < MAX_LEN);
      RedrawnShows(cells, oldTail, head, ate, food);
      outcome := Playing;
    }
  }

  /** The new body is as good as the old one: the food is off the body, so a snake that grows
      does not run into the tail that the collision test skips. */
  lemma MovedGood(body: seq<Pt>, head: Pt, grow: bool, d: Pt)
    requires GoodBody(body) && InPlay(head) && IsUnit(d) && head == Towards(body[0], d)
    requires head !in body[..|body| - 1] && (grow ==> head !in body && |body| < MAX_LEN)
    ensures GoodBody(Moved(body, head, grow))
  {
    MovedDistinct(body, head, grow);
    MovedConnected(body, head, grow, d);
    forall i | 0 <= i < |Moved(body, head, grow)| ensures InPlay(Moved(body, head, grow)[i]) {
      if i > 0 { assert Moved(body, head, grow)[i] == body[i - 1]; }
    }
  }
}
