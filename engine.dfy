/** The game engine: the state of the `Game` object and the blocks of one pass of its frame loop
    (held-key repeat, horizontal move, rotation, gravity with lock and spawn, full-row flagging,
    delayed row compaction, score and level), together with the key and menu handlers. */
module Engine {
  import opened Shapes
  import opened Board
  import opened Resolver
  import opened Moves
  import opened Levels

  /** Frames per second: the gravity limit of a normal fall. */
  const Fps: nat := 60

  /** The gravity limit while a drop is under way. */
  const DropLimit: nat := 3

  /** The menu entries: resume, new game, music, sound, exit. */
  const MenuItems: int := 5

  /** `key_up` in the menu: one entry up, from the first to the last. */
  function PrevItem(s: int): (r: int)
    requires 1 <= s <= MenuItems
    ensures 1 <= r <= MenuItems
  {
    if s - 1 < 1 then MenuItems else s - 1
  }

  /** `key_down` in the menu: one entry down, from the last to the first. */
  function NextItem(s: int): (r: int)
    requires 1 <= s <= MenuItems
    ensures 1 <= r <= MenuItems
  {
    if s + 1 > MenuItems then 1 else s + 1
  }

  /** Up then down, or down then up, returns to the same entry; five steps go round the menu. */
  lemma MenuCycles(s: int)
    requires 1 <= s <= MenuItems
    ensures NextItem(PrevItem(s)) == s && PrevItem(NextItem(s)) == s
    ensures NextItem(NextItem(NextItem(NextItem(NextItem(s))))) == s
    ensures s != 1 ==> PrevItem(s) < s
  {
  }

  // ---------------------------------------------------------------------------
  // The loops of the rotation block over the `coord` triples

  /** `coord[a][0] += dx` and `coord[a][1] += dy` for every `a`. */
  method ShiftCoords(c: seq<Pos>, dx: int, dy: int) returns (d: seq<Pos>)
    ensures d == Shift(c, dx, dy)
  {
    d := c;
    var a := 0;
    while a < |c|
      invariant 0 <= a <= |c| && |d| == |c|
      invariant forall j :: 0 <= j < |c| ==> d[j] == if j < a then Pos(c[j].x + dx, c[j].y + dy) else c[j]
    {
      d := d[a := Pos(d[a].x + dx, d[a].y + dy)];
      a := a + 1;
    }
  }

  /** The three clamps, each a shift of every triple. */
  method ClampCoords(c: seq<Pos>) returns (d: seq<Pos>)
    requires |c| > 0
    ensures d == Clamped(c)
  {
    d := ClampLeftCoords(c);
    d := ClampRightCoords(d);
    d := ClampBottomCoords(d);
  }

  method ClampLeftCoords(c: seq<Pos>) returns (d: seq<Pos>)
    requires |c| > 0
    ensures d == ClampLeft(c)
  {
    d := c;
    var minX := MinOf(Xs(c));
    if minX < 0 {
      d := ShiftCoords(c, Abs(minX), 0);
    }
  }

  method ClampRightCoords(c: seq<Pos>) returns (d: seq<Pos>)
    requires |c| > 0
    ensures d == ClampRight(c)
  {
    d := c;
    var maxX := MaxOf(Xs(c));
    if maxX > 9 {
      d := ShiftCoords(c, -Abs(maxX - 9), 0);
    }
  }

  method ClampBottomCoords(c: seq<Pos>) returns (d: seq<Pos>)
    requires |c| > 0
    ensures d == ClampBottom(c)
  {
    d := c;
    var maxY := MaxOf(Ys(c));
    if maxY > 19 {
      d := ShiftCoords(c, 0, -Abs(maxY - 19));
    }
  }

  /** The third entry of every triple: 1 for an on-board cell holding a block, else 0. */
  method BlockedFlags(f: Field, c: seq<Pos>) returns (flags: seq<bool>)
    requires IsField(f)
    ensures flags == Blocked(f, c)
  {
    flags := seq(|c|, _ => false);
    var a := 0;
    while a < |c|
      invariant 0 <= a <= |c| && |flags| == |c|
      invariant forall j :: 0 <= j < |c| ==> flags[j] == (j < a && Occupied(f, c[j]))
    {
      var hit := if 0 <= c[a].y <= 19 && 0 <= c[a].x <= 9 then f[c[a].y][c[a].x] != Empty else false;
      flags := flags[a := hit];
      a := a + 1;
    }
  }

  /** The horizontal nudge, its shifts done triple by triple. */
  method NudgeHorizontal(f: Field, c: seq<Pos>, flags: seq<bool>) returns (d: seq<Pos>)
    requires IsField(f) && |c| == |flags| && true in flags
    ensures d == NudgeX(f, c, flags)
  {
    var maxX, minX := MaxOf(Xs(c)), MinOf(Xs(c));
    var zx, zy := MaxOf(Picked(Xs(c), flags)), MaxOf(Picked(Ys(c), flags));
    var step := 0;
    if zx > minX && Free(f, zy, zx - 1) {
      step := -Abs(maxX - zx + 1);
    } else if zx < maxX && Free(f, zy, zx + 1) {
      step := Abs(zx - minX + 1);
    }
    assert step == HorizontalStep(f, c, flags);
    d := ShiftCoords(c, step, 0);
  }

  /** The vertical nudge with the flags of before the horizontal one, its shifts done triple by
      triple. */
  method NudgeVertical(f: Field, c: seq<Pos>, flags: seq<bool>) returns (d: seq<Pos>)
    requires IsField(f) && |c| == |flags| && true in flags
    ensures d == NudgeY(f, c, flags)
  {
    var maxY, minY := MaxOf(Ys(c)), MinOf(Ys(c));
    var zx, zy := MaxOf(Picked(Xs(c), flags)), MaxOf(Picked(Ys(c), flags));
    var step := 0;
    if zy > minY && Free(f, zy - 1, zx) {
      step := -Abs(maxY - zy + 1);
    } else if zy < maxY && Free(f, zy + 1, zx) {
      step := Abs(zy - minY + 1);
    }
    assert step == VerticalStep(f, c, flags);
    d := ShiftCoords(c, 0, step);
  }

  /** The resolved rotation keeps the piece in play. */
  lemma RotateInPlay(f: Field, fig: seq<Pos>)
    requires IsField(f) && InPlay(fig)
    ensures InPlay(RotateOutcome(f, fig))
  {
    RotateSafe(f, fig);
  }

  /** `Settle` when the clamped turn hits a block: the nudged piece `v` or `fig`. */
  lemma SettleNudged(f: Field, fig: seq<Pos>, c: seq<Pos>, v: seq<Pos>)
    requires IsField(f) && |c| == 4 && true in Blocked(f, c)
    requires v == NudgeY(f, NudgeX(f, c, Blocked(f, c)), Blocked(f, c))
    ensures Settle(f, fig, c) ==
      if !(true in Blocked(f, v)) && forall i :: 0 <= i < 4 ==> InGrid(v[i]) then v else fig
  {
  }

  // ---------------------------------------------------------------------------
  // The game object

  class Game {
    var field: Field
    var figure: seq<Pos>
    var nextFigure: seq<Pos>
    var color: Rgb
    var nextColor: Rgb
    /** `anim_count` and `anim_speed` in half-units: the speed starts at 1 and grows by 0.5. */
    var animCount: nat
    var animSpeed: nat
    var animLimit: nat
    var best: nat
    var score: nat
    var level: nat
    var select: int
    var animLines: bool
    var countAnimLines: nat
    var gameOver: bool
    var pause: bool
    var info: bool
    var music: bool
    var sound: bool
    var dx: int
    var dy: int
    var rotate: bool
    var left: bool
    var right: bool
    var down: bool
    var up: bool
    var countFrame: nat

    /** Everything but the active piece: a 20 x 10 field, a next piece in play, a menu entry,
        never both the menu and the info screen, and a line animation of at most ten frames that
        is only counted while it runs. */
    ghost predicate Consistent()
      reads this
    {
      IsField(field) && InPlay(nextFigure) &&
      1 <= select <= MenuItems && !(pause && info) &&
      countAnimLines < 10 && (!animLines ==> countAnimLines == 0)
    }

    ghost predicate Valid()
      reads this
    {
      Consistent() && InPlay(figure)
    }

    /** The piece is in play: no line animation, no game over, neither menu nor info screen. */
    predicate Active()
      reads this
    {
      !animLines && !gameOver && !pause && !info
    }

    /** The constructor's game state: an empty field, the two pieces and colours drawn by the
        caller, speed 1, limit FPS, best 0, score 0, level 1, first menu entry, music and sound on. */
    constructor (first: nat, second: nat, firstColor: Rgb, secondColor: Rgb)
      requires first < |Templates| && second < |Templates|
      ensures Valid() && Active()
      ensures field == EmptyField() && figure == SpawnFigure(first) && nextFigure == SpawnFigure(second)
      ensures color == firstColor && nextColor == secondColor
      ensures animCount == 0 && animSpeed == 2 && animLimit == Fps
      ensures best == 0 && score == 0 && level == 1 && select == 1
      ensures countAnimLines == 0 && music && sound
      ensures dx == 0 && dy == 0 && !rotate && !left && !right && !down && !up && countFrame == 0
    {
      field := EmptyField();
      figure, nextFigure := SpawnFigure(first), SpawnFigure(second);
      color, nextColor := firstColor, secondColor;
      animCount, animSpeed, animLimit := 0, 2, Fps;
      best, score, level := 0, 0, 1;
      select := 1;
      animLines, countAnimLines := false, 0;
      gameOver, pause, info := false, false, false;
      music, sound := true, true;
      dx, dy, rotate := 0, 0, false;
      left, right, down, up := false, false, false, false;
      countFrame := 0;
      SpawnInPlay(first);
      SpawnInPlay(second);
    }

    // -------------------------------------------------------------------------
    // Session and menu

    /** A fresh game: empty field, new pieces and colours, speed and counters reset, score 0,
        level 1, no flag set, the menu on its second entry; best, music and sound kept. */
    method NewGame(first: nat, second: nat, firstColor: Rgb, secondColor: Rgb)
      requires first < |Templates| && second < |Templates|
      modifies this`select, this`figure, this`nextFigure, this`color, this`nextColor, this`field,
               this`animCount, this`animSpeed, this`animLimit, this`animLines, this`countAnimLines,
               this`score, this`level, this`gameOver, this`pause, this`info
      ensures Valid() && Active()
      ensures select == 2 && field == EmptyField()
      ensures figure == SpawnFigure(first) && nextFigure == SpawnFigure(second)
      ensures color == firstColor && nextColor == secondColor
      ensures animCount == 0 && animSpeed == 2 && animLimit == Fps && countAnimLines == 0
      ensures score == 0 && level == 1
    {
      SpawnInPlay(first);
      SpawnInPlay(second);
      select := 2;
      figure, nextFigure := SpawnFigure(first), SpawnFigure(second);
      color, nextColor := firstColor, secondColor;
      field := EmptyField();
      animCount, animSpeed, animLimit := 0, 2, Fps;
      animLines := false;
      countAnimLines := 0;
      score := 0;
      level := 1;
      gameOver := false;
      pause := false;
      info := false;
    }

    method KeyLeft()
      modifies this`dx, this`left, this`countFrame
      ensures dx == -1 && left && countFrame == 0
    {
      dx := -1;
      left := true;
      countFrame := 0;
    }

    method KeyRight()
      modifies this`dx, this`right, this`countFrame
      ensures dx == 1 && right && countFrame == 0
    {
      dx := 1;
      right := true;
      countFrame := 0;
    }

    /** In the menu: the previous entry. In play: a rotation request, held. */
    method KeyUp()
      requires Valid()
      modifies this`select, this`rotate, this`up, this`countFrame
      ensures Valid()
      ensures old(pause) ==> select == PrevItem(old(select)) && unchanged(this`rotate, this`up, this`countFrame)
      ensures !old(pause) ==> select == old(select) && rotate && up && countFrame == 0
    {
      if pause {
        select := select - 1;
        if select < 1 {
          select := MenuItems;
        }
      } else {
        rotate := true;
        up := true;
        countFrame := 0;
      }
    }

    /** In the menu: the next entry. In play: a one-row fall request, held. */
    method KeyDown()
      requires Valid()
      modifies this`select, this`dy, this`down, this`countFrame
      ensures Valid()
      ensures old(pause) ==> select == NextItem(old(select)) && unchanged(this`dy, this`down, this`countFrame)
      ensures !old(pause) ==> select == old(select) && dy == 1 && down && countFrame == 0
    {
      if pause {
        select := select + 1;
        if select > MenuItems {
          select := 1;
        }
      } else {
        dy := 1;
        down := true;
        countFrame := 0;
      }
    }

    method Drop()
      modifies this`animLimit
      ensures animLimit == DropLimit
    {
      animLimit := DropLimit;
    }

    method SetMusic()
      modifies this`music
      ensures music == !old(music)
    {
      music := !music;
    }

    method SetSound()
      modifies this`sound
      ensures sound == !old(sound)
    {
      sound := !sound;
    }

    /** Toggles the menu, leaving the info screen and any drop; the menu opens on its first entry. */
    method GetPause()
      requires Valid()
      modifies this`info, this`pause, this`select, this`animLimit
      ensures Valid()
      ensures !info && pause == !old(pause) && select == 1 && animLimit == Fps
    {
      info := false;
      pause := !pause;
      select := 1;
      animLimit := Fps;
    }

    /** Toggles the info screen, leaving the menu and any drop. */
    method GetInfo()
      requires Valid()
      modifies this`pause, this`info, this`animLimit
      ensures Valid()
      ensures !pause && info == !old(info) && animLimit == Fps
    {
      pause := false;
      info := !info;
      animLimit := Fps;
    }

    method Resume()
      requires Valid()
      modifies this`pause, this`info
      ensures Valid() && !pause && !info
    {
      pause := false;
      info := false;
    }

    /** Return in the menu: resume, new game, music, sound, or (the fifth entry) quit. Each entry
        changes only what its handler changes; `best`, the key intents and the held keys are
        outside the frame and so kept by all of them. */
    method ActivateMenuItem(first: nat, second: nat, firstColor: Rgb, secondColor: Rgb) returns (quit: bool)
      requires Valid() && first < |Templates| && second < |Templates|
      modifies this`select, this`figure, this`nextFigure, this`color, this`nextColor, this`field,
               this`animCount, this`animSpeed, this`animLimit, this`animLines, this`countAnimLines,
               this`score, this`level, this`gameOver, this`pause, this`info, this`music, this`sound
      ensures Valid()
      ensures quit <==> old(select) == 5
      ensures old(select) == 1 ==>
        !pause && !info &&
        unchanged(this`select, this`figure, this`nextFigure, this`color, this`nextColor, this`field,
                  this`animCount, this`animSpeed, this`animLimit, this`animLines, this`countAnimLines,
                  this`score, this`level, this`gameOver, this`music, this`sound)
      ensures old(select) == 2 ==>
        Active() && select == 2 && field == EmptyField() &&
        figure == SpawnFigure(first) && nextFigure == SpawnFigure(second) &&
        color == firstColor && nextColor == secondColor &&
        animCount == 0 && animSpeed == 2 && animLimit == Fps && countAnimLines == 0 &&
        score == 0 && level == 1 && unchanged(this`music, this`sound)
      ensures old(select) == 3 ==>
        music == !old(music) &&
        unchanged(this`select, this`figure, this`nextFigure, this`color, this`nextColor, this`field,
                  this`animCount, this`animSpeed, this`animLimit, this`animLines, this`countAnimLines,
                  this`score, this`level, this`gameOver, this`pause, this`info, this`sound)
      ensures old(select) == 4 ==>
        sound == !old(sound) &&
        unchanged(this`select, this`figure, this`nextFigure, this`color, this`nextColor, this`field,
                  this`animCount, this`animSpeed, this`animLimit, this`animLines, this`countAnimLines,
                  this`score, this`level, this`gameOver, this`pause, this`info, this`music)
      ensures old(select) == 5 ==> unchanged(this)
    {
      quit := false;
      if select == 1 {
        Resume();
      } else if select == 2 {
        NewGame(first, second, firstColor, secondColor);
      } else if select == 3 {
        SetMusic();
      } else if select == 4 {
        SetSound();
      } else if select == 5 {
        quit := true;
      }
    }

    // -------------------------------------------------------------------------
    // One pass of the frame loop

    /** The intents of the last frame are dropped (the reset that opens every pass of the loop). */
    method BeginFrame()
      modifies this`dx, this`dy, this`rotate
      ensures dx == 0 && dy == 0 && !rotate
    {
      dx := 0;
      dy := 0;
      rotate := false;
    }

    /** A held key repeats its action every tenth frame; right wins over left. */
    method RepeatHeldKeys()
      modifies this`countFrame, this`dx, this`dy, this`rotate
      ensures !(left || right || down || up) ==> unchanged(this)
      ensures (left || right || down || up) && old(countFrame) + 1 <= 9 ==>
        countFrame == old(countFrame) + 1 && unchanged(this`dx, this`dy, this`rotate)
      ensures (left || right || down || up) && old(countFrame) + 1 > 9 ==>
        countFrame == 0 &&
        dx == (if right then 1 else if left then -1 else old(dx)) &&
        dy == (if down then 1 else old(dy)) &&
        rotate == (up || old(rotate))
    {
      if left || right || down || up {
        countFrame := countFrame + 1;
        if countFrame > 9 {
          countFrame := 0;
          if left {
            dx := -1;
          }
          if right {
            dx := 1;
          }
          if down {
            dy := 1;
          }
          if up {
            rotate := true;
          }
        }
      }
    }

    /** The horizontal move, when the piece is in play and a move was asked for. */
    method MoveX()
      requires Valid()
      modifies this`figure
      ensures Valid()
      ensures figure == if dx != 0 && Active() then MoveOutcome(field, old(figure), dx) else old(figure)
    {
      if dx != 0 && !animLines && !gameOver && !pause && !info {
        ShiftCells();
      }
      MoveSafe(field, old(figure), dx);
    }

    /** The cells moved `dx` columns one by one, restoring the copy at the first cell off the
        board or on a block. */
    method ShiftCells()
      requires IsField(field) && InPlay(figure)
      modifies this`figure
      ensures figure == MoveOutcome(field, old(figure), dx)
    {
      var figureOld := figure;
      var f := field;
      var i := 0;
      while i < 4
        invariant 0 <= i <= 4 && |figure| == 4
        invariant forall j :: 0 <= j < 4 ==>
          figure[j] == if j < i then Pos(figureOld[j].x + dx, figureOld[j].y) else figureOld[j]
        invariant forall j :: 0 <= j < i ==> FreeAt(f, figureOld[j].y, figureOld[j].x + dx)
      {
        figure := figure[i := Pos(figure[i].x + dx, figure[i].y)];
        if figure[i].x < 0 || figure[i].x > 9 || At(f, figure[i].y, figure[i].x) != Empty {
          assert !FreeAt(f, figureOld[i].y, figureOld[i].x + dx);
          assert !CanShift(f, figureOld, dx);
          figure := figureOld;
          return;
        }
        i := i + 1;
      }
      assert CanShift(f, figureOld, dx);
      assert figure == Shift(figureOld, dx, 0);
    }

    /** Every cell turned about the pivot, in place. */
    method TurnFigure()
      requires |figure| == 4
      modifies this`figure
      ensures figure == Rotated(old(figure))
    {
      var center := figure[0];
      var i := 0;
      while i < 4
        invariant 0 <= i <= 4 && |figure| == 4
        invariant forall j :: 0 <= j < 4 ==>
          figure[j] == if j < i then RotateAbout(center, old(figure)[j]) else old(figure)[j]
      {
        var x := figure[i].y - center.y;
        var y := figure[i].x - center.x;
        figure := figure[i := Pos(center.x - x, center.y + y)];
        i := i + 1;
      }
    }

    /** The nudged piece copied in cell by cell; the first cell off the board restores the copy. */
    method CommitCoords(coord: seq<Pos>, figureOld: seq<Pos>)
      requires |coord| == 4 && |figure| == 4
      modifies this`figure
      ensures figure == if forall i :: 0 <= i < 4 ==> InGrid(coord[i]) then coord else figureOld
    {
      var i := 0;
      while i < 4
        invariant 0 <= i <= 4 && |figure| == 4
        invariant forall j :: 0 <= j < i ==> figure[j] == coord[j] && InGrid(coord[j])
      {
        figure := figure[i := coord[i]];
        if !(0 <= coord[i].y <= 19 && 0 <= coord[i].x <= 9) {
          figure := figureOld;
          break;
        }
        i := i + 1;
      }
    }

    /** The rotation block, when the piece is in play and a turn was asked for. */
    method Rotate()
      requires Valid()
      modifies this`figure
      ensures Valid()
      ensures rotate && Active() ==> figure == RotateOutcome(field, old(figure))
      ensures !(rotate && Active()) ==> figure == old(figure)
    {
      if rotate && !animLines && !gameOver && !pause && !info {
        RotateInPlay(field, figure);
        TurnUnlessSquare();
      }
    }

    /** The square is left alone; any other piece is turned and settled. */
    method TurnUnlessSquare()
      requires IsField(field) && InPlay(figure)
      modifies this`figure
      ensures figure == RotateOutcome(field, old(figure))
    {
      if !IsSquare(figure) {
        TurnAndSettle();
      }
    }

    /** Turn, clamp, check, nudge, check again, and commit or undo. */
    method TurnAndSettle()
      requires IsField(field) && InPlay(figure)
      modifies this`figure
      ensures figure == Settle(field, old(figure), Clamped(Rotated(old(figure))))
    {
      var figureOld := figure;
      var f := field;
      TurnFigure();
      var coord := ClampCoords(figure);
      var flags := BlockedFlags(f, coord);
      if !(true in flags) {
        figure := coord;
        SettleClear(f, figureOld, coord);
      } else {
        ghost var c := coord;
        coord := NudgeHorizontal(f, coord, flags);
        coord := NudgeVertical(f, coord, flags);
        var after := BlockedFlags(f, coord);
        if !(true in after) {
          CommitCoords(coord, figureOld);
        } else {
          figure := figureOld;
        }
        SettleNudged(f, figureOld, c, coord);
      }
    }

    /** The gravity step is due: the accumulator, after this frame's increment, reaches twice the
        limit (both in half-units), or a fall was requested. */
    ghost predicate Due()
      reads this
    {
      animCount + animSpeed >= 2 * animLimit || dy > 0
    }

    /** The lock: the piece's old cells take its colour (a row above the board is written into
        the bottom rows, as Python's negative indices do), the preview piece and colour come into
        play, a new preview is drawn, any drop ends, and the game is over when the new piece
        already overlaps a block. */
    method Lock(cells: seq<Pos>, shape: nat, newColor: Rgb)
      requires Consistent() && InPlay(cells) && !gameOver && shape < |Templates|
      modifies this`field, this`figure, this`color, this`nextFigure, this`nextColor, this`animLimit, this`gameOver
      ensures Valid()
      ensures field == Paint(old(field), cells, Block(old(color)))
      ensures figure == old(nextFigure) && color == old(nextColor)
      ensures nextFigure == SpawnFigure(shape) && nextColor == newColor && animLimit == Fps
      ensures gameOver <==> Blocks(field, figure)
    {
      PaintCells(cells);
      figure, color := nextFigure, nextColor;
      nextFigure, nextColor := SpawnFigure(shape), newColor;
      SpawnInPlay(shape);
      animLimit := Fps;
      CheckGameOver();
    }

    /** The piece's cells take the current colour, one after another. */
    method PaintCells(cells: seq<Pos>)
      requires IsField(field) && InPlay(cells)
      modifies this`field
      ensures field == Paint(old(field), cells, Block(color))
    {
      var j := 0;
      while j < 4
        invariant 0 <= j <= 4
        invariant IsField(field)
        invariant field == Paint(old(field), cells[..j], Block(color))
      {
        assert cells[..j + 1][..j] == cells[..j];
        field := SetCell(field, cells[j], Block(color));
        j := j + 1;
      }
      assert cells[..4] == cells;
    }

    /** The new piece is checked cell by cell; the first one on a block ends the game. */
    method CheckGameOver()
      requires IsField(field) && InPlay(figure) && !gameOver
      modifies this`gameOver
      ensures gameOver <==> Blocks(field, figure)
    {
      var t := 0;
      while t < 4
        invariant 0 <= t <= 4 && !gameOver
        invariant forall k :: 0 <= k < t ==> At(field, figure[k].y, figure[k].x) == Empty
      {
        if At(field, figure[t].y, figure[t].x) != Empty {
          gameOver := true;
          return;
        }
        t := t + 1;
      }
    }

    /** Gravity: when due, the piece drops one row cell by cell; the first cell that would pass
        row 19 or land on a block locks the piece where it was. */
    method GravityStep(shape: nat, newColor: Rgb)
      requires Valid() && shape < |Templates|
      modifies this`animCount, this`figure, this`field, this`color, this`nextFigure, this`nextColor,
               this`animLimit, this`gameOver
      ensures Valid()
      ensures !old(Active()) ==> unchanged(this)
      ensures old(Active()) && !old(Due()) ==>
        animCount == old(animCount) + animSpeed &&
        unchanged(this`figure, this`field, this`color, this`nextFigure, this`nextColor, this`animLimit, this`gameOver)
      ensures old(Active()) && old(Due()) && old(CanFall(field, figure)) ==>
        animCount == 0 && figure == Shift(old(figure), 0, 1) &&
        unchanged(this`field, this`color, this`nextFigure, this`nextColor, this`animLimit, this`gameOver)
      ensures old(Active()) && old(Due()) && !old(CanFall(field, figure)) ==>
        animCount == 0 &&
        field == Paint(old(field), old(figure), Block(old(color))) &&
        figure == old(nextFigure) && color == old(nextColor) &&
        nextFigure == SpawnFigure(shape) && nextColor == newColor && animLimit == Fps &&
        (gameOver <==> Blocks(field, figure))
    {
      if !animLines && !gameOver && !pause && !info {
        animCount := animCount + animSpeed;
        if animCount >= 2 * animLimit || dy > 0 {
          animCount := 0;
          var figureOld := figure;
          var landed := DropCells();
          if landed {
            Lock(figureOld, shape, newColor);
          } else {
            FallInPlay(field, figureOld);
          }
        }
      }
    }

    /** Every cell one row down, one after another; the first cell past row 19 or on a block
        stops the pass and reports the landing. */
    method DropCells() returns (landed: bool)
      requires IsField(field) && InPlay(figure)
      modifies this`figure
      ensures landed <==> !CanFall(field, old(figure))
      ensures !landed ==> figure == Shift(old(figure), 0, 1)
    {
      var figureOld := figure;
      landed := false;
      var i := 0;
      while i < 4
        invariant 0 <= i <= 4 && |figure| == 4
        invariant forall j :: 0 <= j < 4 ==>
          figure[j] == if j < i then Pos(figureOld[j].x, figureOld[j].y + 1) else figureOld[j]
        invariant forall j :: 0 <= j < i ==>
          figureOld[j].y + 1 < Rows && FreeAt(field, figureOld[j].y + 1, figureOld[j].x)
      {
        figure := figure[i := Pos(figure[i].x, figure[i].y + 1)];
        if figure[i].y > 19 || At(field, figure[i].y, figure[i].x) != Empty {
          assert !(figureOld[i].y + 1 < Rows && FreeAt(field, figureOld[i].y + 1, figureOld[i].x));
          landed := true;
          return;
        }
        i := i + 1;
      }
    }

    /** Whitens one full row, cell by cell. */
    method WhitenRow(row: int)
      requires IsField(field) && 0 <= row < Rows
      modifies this`field
      ensures field == old(field)[row := WhiteRow()]
    {
      var j := 0;
      while j < Cols
        invariant 0 <= j <= Cols && |field| == Rows && |field[row]| == Cols
        invariant forall y :: 0 <= y < Rows && y != row ==> field[y] == old(field)[y]
        invariant forall x :: 0 <= x < Cols ==> field[row][x] == if x < j then Block(White) else old(field)[row][x]
      {
        field := field[row := field[row][j := Block(White)]];
        j := j + 1;
      }
      assert field[row] == WhiteRow();
    }

    /** The full-row scan, skipped on game over, in the menu and on the info screen. */
    method FlagFullRows()
      requires Valid()
      modifies this`field, this`animLines
      ensures Valid()
      ensures old(gameOver || pause || info) ==> unchanged(this)
      ensures !old(gameOver || pause || info) ==>
        field == Flagged(old(field)) && (animLines <==> old(animLines) || HasFullRow(old(field)))
    {
      if !gameOver && !pause && !info {
        ScanRows();
        FlaggedKeepsFullRows(old(field));
      }
    }

    /** Rows bottom to top: every full row is whitened and starts the line animation. */
    method ScanRows()
      requires IsField(field)
      modifies this`field, this`animLines
      ensures field == Flagged(old(field))
      ensures animLines <==> old(animLines) || HasFullRow(old(field))
    {
      var row := Rows - 1;
      while row >= 0
        invariant -1 <= row < Rows
        invariant IsField(field)
        invariant forall y :: 0 <= y < Rows ==> field[y] == if y > row then Flagged(old(field))[y] else old(field)[y]
        invariant animLines <==> old(animLines) || exists y :: row < y < Rows && IsFull(old(field)[y])
      {
        var count := CountFilled(field[row]);
        if count == 10 {
          WhitenRow(row);
          animLines := true;
        }
        row := row - 1;
      }
      assert field == Flagged(old(field));
    }

    /** One pass of the compaction loop: row `row` copied into row `line` cell by cell while its
        blocks are counted. */
    method CopyRow(row: int, line: int) returns (count: nat)
      requires IsField(field) && 0 <= row <= line < Rows
      modifies this`field
      ensures IsField(field)
      ensures field == old(field)[line := old(field)[row]]
      ensures count == Filled(old(field)[row])
    {
      ghost var src := field[row];
      count := 0;
      var i := 0;
      while i < Cols
        invariant 0 <= i <= Cols && |field| == Rows && |field[line]| == Cols
        invariant forall y :: 0 <= y < Rows && y != line ==> field[y] == old(field)[y]
        invariant forall x :: 0 <= x < Cols ==> field[line][x] == if x < i then src[x] else old(field)[line][x]
        invariant count == Filled(src[..i])
      {
        assert src[..i + 1][..i] == src[..i];
        assert field[row][i] == src[i];
        if field[row][i] != Empty {
          count := count + 1;
        }
        field := field[line := field[line][i := field[row][i]]];
        i := i + 1;
      }
      assert src[..Cols] == src;
      assert field[line] == src;
    }

    /** The compaction: rows bottom to top, each copied to `line`, which moves up past every row
        that is not full. The rows it vacates at the top are not cleared. */
    method CompactRows() returns (lines: nat)
      requires IsField(field)
      modifies this`field
      ensures IsField(field)
      ensures field == Compacted(old(field)) && lines == FullCount(old(field))
    {
      ghost var f := field;
      var line := Rows - 1;
      lines := 0;
      var row := Rows - 1;
      while row >= 0
        invariant CompactionState(f, field, row, line, lines)
      {
        ghost var before := field;
        CompactionRowSource(f, field, row, line, lines);
        var count := CopyRow(row, line);
        CompactionStep(f, before, row, line, lines);
        if count < 10 {
          line := line - 1;
        } else {
          lines := lines + 1;
        }
        row := row - 1;
      }
      CompactionDone(f, field, line, lines);
      assert IsField(field) by {
        CompactedShape(f);
      }
    }

    /** The line animation: ten frames after rows were flagged, it stops and the field is
        compacted; the result is the number of rows cleared. Not gated by the menu. */
    method TickClearAnimation() returns (lines: nat)
      requires Valid()
      modifies this`field, this`animLines, this`countAnimLines
      ensures Valid()
      ensures !old(animLines) ==> lines == 0 && unchanged(this)
      ensures old(animLines) && old(countAnimLines) + 1 < 10 ==>
        lines == 0 && animLines && countAnimLines == old(countAnimLines) + 1 && field == old(field)
      ensures old(animLines) && old(countAnimLines) + 1 == 10 ==>
        !animLines && countAnimLines == 0 &&
        field == Compacted(old(field)) && lines == FullCount(old(field))
    {
      lines := 0;
      if animLines {
        countAnimLines := countAnimLines + 1;
        if countAnimLines == 10 {
          countAnimLines := 0;
          animLines := false;
          lines := CompactRows();
        }
      }
    }

    /** Score, best and level: the score grows by the rows cleared; the best follows it up; a
        crossed threshold of 10, 20, ..., 1000 raises the level and the speed by half a unit. */
    method UpdateScore(lines: nat)
      requires Valid()
      modifies this`score, this`best, this`level, this`animSpeed
      ensures Valid()
      ensures score == old(score) + lines
      ensures best == if lines != 0 && score > old(best) then score else old(best)
      ensures var up := lines != 0 && CrossesThreshold(old(score), score);
        level == old(level) + (if up then 1 else 0) && animSpeed == old(animSpeed) + (if up then 1 else 0)
    {
      var oldScore := score;
      score := score + lines;
      if lines != 0 {
        if score > best {
          best := score;
        }
        var next := NextLevel(oldScore, score);
        if next {
          animSpeed := animSpeed + 1;
          level := level + 1;
        }
      }
    }

    /** The engine's part of one frame, after the events: the piece's turn, then the rows'. A
        frozen piece (menu, info, game over) does not move, and without a running line animation
        neither field nor score changes. */
    method Step(shape: nat, newColor: Rgb) returns (lines: nat)
      requires Valid() && shape < |Templates|
      modifies this
      ensures Valid()
      ensures score == old(score) + lines
      ensures old(pause || info || gameOver) ==> figure == old(figure)
      ensures old(pause || info || gameOver) && !old(animLines) ==> field == old(field) && lines == 0
    {
      PlayPiece(shape, newColor);
      lines := SettleRows();
    }

    /** Held keys, move, rotation and gravity; a frozen piece and its field stay as they are. */
    method PlayPiece(shape: nat, newColor: Rgb)
      requires Valid() && shape < |Templates|
      modifies this`countFrame, this`dx, this`dy, this`rotate, this`figure, this`animCount, this`field,
               this`color, this`nextFigure, this`nextColor, this`animLimit, this`gameOver
      ensures Valid()
      ensures old(pause || info || gameOver) ==> unchanged(this`figure, this`field, this`gameOver)
    {
      RepeatHeldKeys();
      MoveX();
      Rotate();
      GravityStep(shape, newColor);
    }

    /** Flagging, line animation and score: the score grows by the rows cleared, and without a
        running animation a frozen game's field is left alone and nothing is cleared. */
    method SettleRows() returns (lines: nat)
      requires Valid()
      modifies this`field, this`animLines, this`countAnimLines, this`score, this`best, this`level, this`animSpeed
      ensures Valid()
      ensures score == old(score) + lines
      ensures old(pause || info || gameOver) && !old(animLines) ==> field == old(field) && lines == 0
    {
      FlagFullRows();
      lines := TickClearAnimation();
      UpdateScore(lines);
    }
  }

  /** The compaction loop's state after rows `row + 1 ..` of `f` were visited: the non-full ones
      fill `g` from the bottom up to `line + 1`, `lines` full ones were skipped, rows above `line`
      are untouched, and row `line` holds the last full row copied there (or its own contents). */
  ghost predicate CompactionState(f: Field, g: Field, row: int, line: int, lines: nat)
  {
    IsField(f) && IsField(g) && -1 <= row <= line < Rows &&
    line == Rows - 1 - |NonFull(f[row + 1..])| &&
    lines == FullCount(f[row + 1..]) &&
    g[line + 1..] == NonFull(f[row + 1..]) &&
    (forall y :: 0 <= y < line ==> g[y] == f[y]) &&
    (0 <= line ==> g[line] == if row + 1 < Rows && IsFull(f[row + 1]) then f[row + 1] else f[line]) &&
    (row + 1 < Rows && IsFull(f[row + 1]) ==> row < line)
  }

  /** The row the loop reads next is still the original one. */
  lemma CompactionRowSource(f: Field, g: Field, row: int, line: int, lines: nat)
    requires CompactionState(f, g, row, line, lines) && 0 <= row
    ensures g[row] == f[row]
  {
  }

  /** One pass: row `row` copied to `line`; `line` moves up iff the row is not full. */
  lemma {:induction false} CompactionStep(f: Field, g: Field, row: int, line: int, lines: nat)
    requires CompactionState(f, g, row, line, lines) && 0 <= row
    ensures var h := g[line := f[row]];
      if Filled(f[row]) < 10 then CompactionState(f, h, row - 1, line - 1, lines)
      else CompactionState(f, h, row - 1, line, lines + 1)
  {
    var h := g[line := f[row]];
    assert f[row..][1..] == f[row + 1..];
    assert h[line + 1..] == g[line + 1..];
    if Filled(f[row]) < 10 {
      assert h[line..] == [f[row]] + g[line + 1..];
    }
  }

  /** The loop's final state is the compacted field and the count of full rows. */
  lemma CompactionDone(f: Field, g: Field, line: int, lines: nat)
    requires CompactionState(f, g, -1, line, lines)
    ensures g == Compacted(f) && lines == FullCount(f)
  {
    assert f[0..] == f;
    CompactedFrom(f, g, line);
  }

  /** The end of the compaction loop, read as the compacted field. */
  lemma CompactedFrom(f: Field, g: Field, line: int)
    requires IsField(f) && |g| == Rows && -1 <= line < Rows
    requires line == Rows - 1 - |NonFull(f)|
    requires g[line + 1..] == NonFull(f)
    requires forall y :: 0 <= y < line ==> g[y] == f[y]
    requires 0 <= line ==> g[line] == if IsFull(f[0]) then f[0] else f[line]
    ensures g == Compacted(f)
  {
    if line < 0 {
      NonFullKeepsAll(f);
      assert g == g[0..];
    } else {
      var c := Compacted(f);
      assert |c| == Rows;
      forall y | 0 <= y < Rows ensures g[y] == c[y] {
        if y > line {
          assert g[y] == g[line + 1..][y - line - 1];
        }
      }
    }
  }
}
