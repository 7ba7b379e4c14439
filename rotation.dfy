/** The rotation resolver of the frame loop: the quarter turn, the three clamps that pull the
    turned piece back inside columns 0..9 and above row 20, the horizontal and vertical nudges
    that try to slide it off the blocks it hits, and the final acceptance or rollback. */
module Resolver {
  import opened Shapes
  import opened Board

  // ---------------------------------------------------------------------------
  // Clamping

  /** A cell left of column 0: everything moves right by the overhang. */
  function ClampLeft(c: seq<Pos>): seq<Pos>
    requires |c| > 0
  {
    var minX := MinOf(Xs(c));
    if minX < 0 then Shift(c, Abs(minX), 0) else c
  }

  /** A cell right of column 9: everything moves left by the overhang. */
  function ClampRight(c: seq<Pos>): seq<Pos>
    requires |c| > 0
  {
    var maxX := MaxOf(Xs(c));
    if maxX > 9 then Shift(c, -Abs(maxX - 9), 0) else c
  }

  /** A cell below row 19: everything moves up by the overhang. */
  function ClampBottom(c: seq<Pos>): seq<Pos>
    requires |c| > 0
  {
    var maxY := MaxOf(Ys(c));
    if maxY > 19 then Shift(c, 0, -Abs(maxY - 19)) else c
  }

  /** The three clamps in the source's order: left edge, right edge, floor. */
  function Clamped(c: seq<Pos>): seq<Pos>
    requires |c| > 0
  {
    ClampBottom(ClampRight(ClampLeft(c)))
  }

  /** A clamped piece keeps its shape, lies in columns 0..9 and on or above row 19, and its
      pivot does not rise above row 0 unless it started there. */
  lemma {:induction false} ClampedBounds(c: seq<Pos>)
    requires Shaped(c)
    ensures var d := Clamped(c);
      Shaped(d) && SameShape(d, c) &&
      (forall i :: 0 <= i < 4 ==> 0 <= d[i].x < Cols && d[i].y < Rows) &&
      d[0].y >= Min(c[0].y, Rows - 3)
  {
    var c1 := ClampLeft(c);
    ClampLeftBounds(c);
    var c2 := ClampRight(c1);
    ClampRightBounds(c1);
    ClampBottomBounds(c2);
    SameShapeTrans(c2, c1, c);
    SameShapeTrans(Clamped(c), c2, c);
  }

  lemma {:induction false} ClampLeftBounds(c: seq<Pos>)
    requires Shaped(c)
    ensures var d := ClampLeft(c);
      Shaped(d) && SameShape(d, c) &&
      forall i :: 0 <= i < 4 ==> 0 <= d[i].x && d[i].y == c[i].y
  {
    var m := MinOf(Xs(c));
    assert forall i :: 0 <= i < 4 ==> m <= c[i].x;
  }

  lemma {:induction false} ClampRightBounds(c: seq<Pos>)
    requires Shaped(c) && forall i :: 0 <= i < 4 ==> 0 <= c[i].x
    ensures var d := ClampRight(c);
      Shaped(d) && SameShape(d, c) &&
      forall i :: 0 <= i < 4 ==> 0 <= d[i].x < Cols && d[i].y == c[i].y
  {
    var m := MaxOf(Xs(c));
    assert forall i :: 0 <= i < 4 ==> c[i].x <= m;
    var j :| 0 <= j < 4 && Xs(c)[j] == m;
    assert m <= c[0].x + 2;
  }

  lemma {:induction false} ClampBottomBounds(c: seq<Pos>)
    requires Shaped(c)
    ensures var d := ClampBottom(c);
      Shaped(d) && SameShape(d, c) &&
      (forall i :: 0 <= i < 4 ==> d[i].y < Rows && d[i].x == c[i].x) &&
      d[0].y >= Min(c[0].y, Rows - 3)
  {
    var m := MaxOf(Ys(c));
    assert forall i :: 0 <= i < 4 ==> c[i].y <= m;
    var j :| 0 <= j < 4 && Ys(c)[j] == m;
    assert m <= c[0].y + 2;
  }

  lemma SameShapeTrans(a: seq<Pos>, b: seq<Pos>, c: seq<Pos>)
    requires SameShape(a, b) && SameShape(b, c)
    ensures SameShape(a, c)
  {
  }

  // ---------------------------------------------------------------------------
  // Collisions and nudges

  /** The third entry of each `coord` triple: 1 for an on-board cell that holds a block. */
  function Blocked(f: Field, c: seq<Pos>): (flags: seq<bool>)
    requires IsField(f)
    ensures |flags| == |c|
    ensures forall i :: 0 <= i < |c| ==> (flags[i] <==> Occupied(f, c[i]))
  {
    seq(|c|, i requires 0 <= i < |c| => Occupied(f, c[i]))
  }

  /** The columns the horizontal nudge moves the piece by. `zx` is the largest column and `zy` the
      largest row among the flagged cells, taken independently (they may belong to different
      cells). If the cell left of (zx, zy) is free the piece slides left so that its right edge
      lands left of `zx`; otherwise if the cell right of it is free the piece slides right past
      `zx`; otherwise it stays. */
  function HorizontalStep(f: Field, c: seq<Pos>, flags: seq<bool>): int
    requires IsField(f) && |c| == |flags| && true in flags
  {
    var maxX, minX := MaxOf(Xs(c)), MinOf(Xs(c));
    var zx, zy := MaxOf(Picked(Xs(c), flags)), MaxOf(Picked(Ys(c), flags));
    if zx > minX && Free(f, zy, zx - 1) then -Abs(maxX - zx + 1)
    else if zx < maxX && Free(f, zy, zx + 1) then Abs(zx - minX + 1)
    else 0
  }

  /** The horizontal nudge: the piece translated by `HorizontalStep` columns. */
  function NudgeX(f: Field, c: seq<Pos>, flags: seq<bool>): seq<Pos>
    requires IsField(f) && |c| == |flags| && true in flags
  {
    Shift(c, HorizontalStep(f, c, flags), 0)
  }

  /** The rows the vertical nudge moves the piece by, computed like `HorizontalStep` on the
      horizontally nudged coordinates but with the flags computed before that nudge. A lookup
      Python would reject counts as not free. */
  function VerticalStep(f: Field, c: seq<Pos>, flags: seq<bool>): int
    requires IsField(f) && |c| == |flags| && true in flags
  {
    var maxY, minY := MaxOf(Ys(c)), MinOf(Ys(c));
    var zx, zy := MaxOf(Picked(Xs(c), flags)), MaxOf(Picked(Ys(c), flags));
    if zy > minY && Free(f, zy - 1, zx) then -Abs(maxY - zy + 1)
    else if zy < maxY && Free(f, zy + 1, zx) then Abs(zy - minY + 1)
    else 0
  }

  /** The vertical nudge: the piece translated by `VerticalStep` rows. */
  function NudgeY(f: Field, c: seq<Pos>, flags: seq<bool>): seq<Pos>
    requires IsField(f) && |c| == |flags| && true in flags
  {
    Shift(c, 0, VerticalStep(f, c, flags))
  }

  /** Both nudges only translate the piece. */
  lemma NudgesKeepShape(f: Field, c: seq<Pos>, flags: seq<bool>)
    requires IsField(f) && |c| == |flags| && |c| > 0 && true in flags
    ensures SameShape(NudgeX(f, c, flags), c)
    ensures SameShape(NudgeY(f, NudgeX(f, c, flags), flags), c)
  {
    var h := NudgeX(f, c, flags);
    assert SameShape(h, c);
    var v := NudgeY(f, h, flags);
    assert SameShape(v, c);
  }

  // ---------------------------------------------------------------------------
  // The resolved rotation

  /** Where the piece ends up when rotation is requested. The square is never turned. Otherwise
      the turned piece is clamped; with no on-board cell on a block it is taken as is (cells above
      row 0 allowed). Otherwise it is nudged and taken only if it then hits no block and lies
      wholly on the board; failing that the rotation is undone. */
  function RotateOutcome(f: Field, fig: seq<Pos>): seq<Pos>
    requires IsField(f) && InPlay(fig)
  {
    if IsSquare(fig) then fig else Settle(f, fig, Clamped(Rotated(fig)))
  }

  /** The clamped turn `c` of `fig` taken as is, nudged and taken, or given up for `fig`. */
  function Settle(f: Field, fig: seq<Pos>, c: seq<Pos>): seq<Pos>
    requires IsField(f)
  {
    var flags := Blocked(f, c);
    if !(true in flags) then c
    else
      var v := NudgeY(f, NudgeX(f, c, flags), flags);
      if !(true in Blocked(f, v)) && forall i :: 0 <= i < |v| ==> InGrid(v[i]) then v else fig
  }

  /** Rotation never breaks the piece invariant and never lands on a block: the piece either
      stays put or becomes a translate of its quarter turn, in columns 0..9, on or above row 19,
      covering no block. */
  lemma {:induction false} RotateSafe(f: Field, fig: seq<Pos>)
    requires IsField(f) && InPlay(fig)
    ensures var r := RotateOutcome(f, fig);
      InPlay(r) &&
      (r == fig ||
       (SameShape(r, Rotated(fig)) && forall i :: 0 <= i < 4 ==> !Occupied(f, r[i])))
  {
    if !IsSquare(fig) {
      var t := Rotated(fig);
      RotatedShaped(fig);
      ClampedBounds(t);
      var c := Clamped(t);
      var flags := Blocked(f, c);
      if true in flags {
        NudgedSafe(f, t, c, flags);
      } else {
        NoneBlocked(f, c);
      }
    }
  }

  /** The nudged path: a piece taken after the nudges is a translate of the turned piece,
      wholly on the board and on no block. */
  lemma {:induction false} NudgedSafe(f: Field, t: seq<Pos>, c: seq<Pos>, flags: seq<bool>)
    requires IsField(f) && Shaped(t) && SameShape(c, t) && flags == Blocked(f, c) && true in flags
    ensures var v := NudgeY(f, NudgeX(f, c, flags), flags);
      !(true in Blocked(f, v)) && (forall i :: 0 <= i < |v| ==> InGrid(v[i])) ==>
        InPlay(v) && SameShape(v, t) && forall i :: 0 <= i < 4 ==> !Occupied(f, v[i])
  {
    var v := NudgeY(f, NudgeX(f, c, flags), flags);
    NudgesKeepShape(f, c, flags);
    SameShapeTrans(v, c, t);
    if !(true in Blocked(f, v)) {
      NoneBlocked(f, v);
    }
  }

  lemma NoneBlocked(f: Field, c: seq<Pos>)
    requires IsField(f) && !(true in Blocked(f, c))
    ensures forall i :: 0 <= i < |c| ==> !Occupied(f, c[i])
  {
    var flags := Blocked(f, c);
    forall i | 0 <= i < |c| ensures !Occupied(f, c[i]) {
      assert flags[i] != true;
    }
  }

  /** The square is never turned. */
  lemma SquareStays(f: Field, fig: seq<Pos>)
    requires IsField(f) && InPlay(fig) && IsSquare(fig)
    ensures RotateOutcome(f, fig) == fig
  {
  }

  /** On an empty board nothing blocks, so a turned piece is taken as the clamps leave it. */
  lemma EmptyBoardTurns(fig: seq<Pos>)
    requires InPlay(fig) && !IsSquare(fig)
    ensures RotateOutcome(EmptyField(), fig) == Clamped(Rotated(fig))
  {
    var c := Clamped(Rotated(fig));
    NothingBlockedOnEmpty(c);
    SettleClear(EmptyField(), fig, c);
  }

  /** No cell is blocked on the empty field. */
  lemma NothingBlockedOnEmpty(c: seq<Pos>)
    ensures !(true in Blocked(EmptyField(), c))
  {
    assert forall i :: 0 <= i < |c| ==> !Blocked(EmptyField(), c)[i];
  }

  /** `Settle` when the clamped turn hits no block. */
  lemma SettleClear(f: Field, fig: seq<Pos>, c: seq<Pos>)
    requires IsField(f) && !(true in Blocked(f, c))
    ensures Settle(f, fig, c) == c
  {
  }


  // ---------------------------------------------------------------------------
  // The vertical nudge as written: its lookups can fail

  /** `not field[y][x]` as Python evaluates it: None where the lookup raises IndexError. */
  function PyFree(f: Field, y: int, x: int): (r: Option<bool>)
    requires IsField(f)
    ensures r == Some(true) <==> Free(f, y, x)
  {
    match PyCell(f, y, x)
    case None => None
    case Some(cell) => Some(cell == Empty)
  }

  /** The vertical nudge as the source writes it: the stale flags can leave `zx` one or two
      columns right of the board, and `field[zy - 1][zx]` or `field[zy + 1][zx]` then raises. */
  function NudgeYAsWritten(f: Field, c: seq<Pos>, flags: seq<bool>): Option<seq<Pos>>
    requires IsField(f) && |c| == |flags| && true in flags
  {
    var maxY, minY := MaxOf(Ys(c)), MinOf(Ys(c));
    var zx, zy := MaxOf(Picked(Xs(c), flags)), MaxOf(Picked(Ys(c), flags));
    var up := if zy > minY then PyFree(f, zy - 1, zx) else Some(false);
    match up
    case None => None
    case Some(true) => Some(Shift(c, 0, -Abs(maxY - zy + 1)))
    case Some(false) =>
      var down := if zy < maxY then PyFree(f, zy + 1, zx) else Some(false);
      match down
      case None => None
      case Some(true) => Some(Shift(c, 0, Abs(zy - minY + 1)))
      case Some(false) => Some(c)
  }

  /** The rotation as written: None where the vertical nudge raises IndexError. */
  function RotateAsWritten(f: Field, fig: seq<Pos>): Option<seq<Pos>>
    requires IsField(f) && InPlay(fig)
  {
    if IsSquare(fig) then Some(fig) else SettleAsWritten(f, fig, Clamped(Rotated(fig)))
  }

  /** `Settle` as the source writes it, with the vertical nudge that can raise. */
  function SettleAsWritten(f: Field, fig: seq<Pos>, c: seq<Pos>): Option<seq<Pos>>
    requires IsField(f)
  {
    var flags := Blocked(f, c);
    if !(true in flags) then Some(c)
    else
      match NudgeYAsWritten(f, NudgeX(f, c, flags), flags)
      case None => None
      case Some(v) =>
        if !(true in Blocked(f, v)) && forall i :: 0 <= i < |v| ==> InGrid(v[i]) then Some(v)
        else Some(fig)
  }

  /** Wherever the source does not raise, it does what the corrected rotation does. */
  lemma AsWrittenAgrees(f: Field, fig: seq<Pos>)
    requires IsField(f) && InPlay(fig)
    ensures RotateAsWritten(f, fig).Some? ==> RotateAsWritten(f, fig).value == RotateOutcome(f, fig)
  {
    if !IsSquare(fig) {
      SettleAgrees(f, fig, Clamped(Rotated(fig)));
    }
  }

  /** The same for the step after the clamps. */
  lemma SettleAgrees(f: Field, fig: seq<Pos>, c: seq<Pos>)
    requires IsField(f)
    ensures SettleAsWritten(f, fig, c).Some? ==> SettleAsWritten(f, fig, c).value == Settle(f, fig, c)
  {
    var flags := Blocked(f, c);
    if true in flags {
      var h := NudgeX(f, c, flags);
      NudgeYAgrees(f, h, flags);
      match NudgeYAsWritten(f, h, flags)
      case None =>
      case Some(v) =>
        assert v == NudgeY(f, h, flags);
    }
  }

  lemma NudgeYAgrees(f: Field, c: seq<Pos>, flags: seq<bool>)
    requires IsField(f) && |c| == |flags| && true in flags
    ensures NudgeYAsWritten(f, c, flags).Some? ==> NudgeYAsWritten(f, c, flags).value == NudgeY(f, c, flags)
  {
    if VerticalStep(f, c, flags) == 0 {
      ShiftZero(c);
    }
  }

  /** Two blocks at columns 7..8 of row 18 (and row 19 below them). */
  function CrashField(): (f: Field)
    ensures IsField(f)
    ensures forall y, x :: 0 <= y < Rows && 0 <= x < Cols ==>
      f[y][x] == if y >= 18 && 7 <= x <= 8 then Block(White) else Empty
  {
    seq(Rows, y => seq(Cols, x => if y >= 18 && 7 <= x <= 8 then Block(White) else Empty))
  }

  /** The piece of template 4 moved to the right wall, its pivot at column 9, row 18. */
  const CrashFigure: seq<Pos> := [Pos(9, 18), Pos(9, 17), Pos(9, 19), Pos(8, 17)]

  /** The counterexample: turned, clamped one column left, the piece hits the blocks at
      (7, 18) and (8, 18); the horizontal nudge slides it two columns right, so the stale flags
      give `zx` = 10 and the source's lookup `field[17][10]` raises. */
  lemma RotationCrash()
    ensures IsField(CrashField()) && InPlay(CrashFigure)
    ensures RotateAsWritten(CrashField(), CrashFigure) == None
  {
    CrashPath();
    CrashNudgeY();
  }

  /** On the same input the corrected rotation finds the nudged piece off the board and undoes
      the turn. */
  lemma RotationCrashRolledBack()
    ensures IsField(CrashField()) && InPlay(CrashFigure)
    ensures RotateOutcome(CrashField(), CrashFigure) == CrashFigure
  {
    CrashPath();
    CrashNudgeY();
    var f := CrashField();
    var c := Clamped(Rotated(CrashFigure));
    var flags := Blocked(f, c);
    var v := NudgeY(f, NudgeX(f, c, flags), flags);
    assert !InGrid(v[0]);
    OffBoardRollsBack(f, CrashFigure, c, 0);
  }

  /** A piece nudged partly off the board is not taken: the turn is undone. */
  lemma OffBoardRollsBack(f: Field, fig: seq<Pos>, c: seq<Pos>, i: nat)
    requires IsField(f) && |c| == 4 && true in Blocked(f, c) && i < 4
    requires !InGrid(NudgeY(f, NudgeX(f, c, Blocked(f, c)), Blocked(f, c))[i])
    ensures Settle(f, fig, c) == fig
  {
    var v := NudgeY(f, NudgeX(f, c, Blocked(f, c)), Blocked(f, c));
    assert !(forall j :: 0 <= j < |v| ==> InGrid(v[j]));
  }

  /** The crash input reaches the nudges with the piece two columns right of the wall. */
  lemma CrashPath()
    ensures InPlay(CrashFigure) && !IsSquare(CrashFigure)
    ensures var c := Clamped(Rotated(CrashFigure));
      var flags := Blocked(CrashField(), c);
      flags == [true, false, true, false] &&
      NudgeX(CrashField(), c, flags) == [Pos(10, 18), Pos(11, 18), Pos(9, 18), Pos(11, 17)]
  {
    CrashTurn();
    CrashFlags();
    CrashNudgeX();
  }

  /** Not the square; turned it pokes out at column 10 and is clamped one column left. */
  lemma CrashTurn()
    ensures InPlay(CrashFigure) && !IsSquare(CrashFigure)
    ensures Clamped(Rotated(CrashFigure)) == [Pos(8, 18), Pos(9, 18), Pos(7, 18), Pos(9, 17)]
  {
    CrashNotSquare();
    CrashRotated();
    CrashClamp(Rotated(CrashFigure));
  }

  lemma CrashNotSquare()
    ensures InPlay(CrashFigure) && !IsSquare(CrashFigure)
  {
    var fig := CrashFigure;
    assert Xs(fig) == [9, 9, 9, 8] && Ys(fig) == [18, 17, 19, 17];
    MaxOfFour(Ys(fig));
    MinOfFour(Ys(fig));
  }

  lemma CrashRotated()
    ensures Rotated(CrashFigure) == [Pos(9, 18), Pos(10, 18), Pos(8, 18), Pos(10, 17)]
  {
    var t := Rotated(CrashFigure);
    assert t[1] == Pos(10, 18) && t[2] == Pos(8, 18) && t[3] == Pos(10, 17);
  }

  lemma CrashClamp(t: seq<Pos>)
    requires t == [Pos(9, 18), Pos(10, 18), Pos(8, 18), Pos(10, 17)]
    ensures Clamped(t) == [Pos(8, 18), Pos(9, 18), Pos(7, 18), Pos(9, 17)]
  {
    CrashClampLeft(t);
    CrashClampRight(t);
    CrashClampBottom([Pos(8, 18), Pos(9, 18), Pos(7, 18), Pos(9, 17)]);
  }

  /** No cell is left of column 0. */
  lemma CrashClampLeft(t: seq<Pos>)
    requires t == [Pos(9, 18), Pos(10, 18), Pos(8, 18), Pos(10, 17)]
    ensures ClampLeft(t) == t
  {
    assert Xs(t) == [9, 10, 8, 10];
    MinOfFour(Xs(t));
  }

  /** Column 10 overhangs by one: one column left. */
  lemma CrashClampRight(t: seq<Pos>)
    requires t == [Pos(9, 18), Pos(10, 18), Pos(8, 18), Pos(10, 17)]
    ensures ClampRight(t) == [Pos(8, 18), Pos(9, 18), Pos(7, 18), Pos(9, 17)]
  {
    assert Xs(t) == [9, 10, 8, 10];
    MaxOfFour(Xs(t));
    assert Shift(t, -1, 0) == [Pos(8, 18), Pos(9, 18), Pos(7, 18), Pos(9, 17)];
  }

  /** No cell is below row 19. */
  lemma CrashClampBottom(c: seq<Pos>)
    requires c == [Pos(8, 18), Pos(9, 18), Pos(7, 18), Pos(9, 17)]
    ensures ClampBottom(c) == c
  {
    assert Ys(c) == [18, 18, 18, 17];
    MaxOfFour(Ys(c));
  }

  /** Cells 0 and 2 sit on the blocks (8, 18) and (7, 18). */
  lemma CrashFlags()
    ensures Blocked(CrashField(), [Pos(8, 18), Pos(9, 18), Pos(7, 18), Pos(9, 17)]) == [true, false, true, false]
  {
  }

  /** zx = 8, zy = 18; (7, 18) is a block, (9, 18) is free, so the piece slides two columns right. */
  lemma CrashNudgeX()
    ensures NudgeX(CrashField(), [Pos(8, 18), Pos(9, 18), Pos(7, 18), Pos(9, 17)], [true, false, true, false])
         == [Pos(10, 18), Pos(11, 18), Pos(9, 18), Pos(11, 17)]
  {
    CrashHorizontalStep([Pos(8, 18), Pos(9, 18), Pos(7, 18), Pos(9, 17)]);
    CrashShiftRight([Pos(8, 18), Pos(9, 18), Pos(7, 18), Pos(9, 17)]);
  }

  lemma CrashShiftRight(c: seq<Pos>)
    requires c == [Pos(8, 18), Pos(9, 18), Pos(7, 18), Pos(9, 17)]
    ensures Shift(c, 2, 0) == [Pos(10, 18), Pos(11, 18), Pos(9, 18), Pos(11, 17)]
  {
  }

  lemma CrashHorizontalStep(c: seq<Pos>)
    requires c == [Pos(8, 18), Pos(9, 18), Pos(7, 18), Pos(9, 17)]
    ensures HorizontalStep(CrashField(), c, [true, false, true, false]) == 2
  {
    CrashHorizontalExtremes(c);
    assert !Free(CrashField(), 18, 7);
    assert Free(CrashField(), 18, 9);
  }

  lemma CrashHorizontalExtremes(c: seq<Pos>)
    requires c == [Pos(8, 18), Pos(9, 18), Pos(7, 18), Pos(9, 17)]
    ensures var flags := [true, false, true, false];
      MaxOf(Xs(c)) == 9 && MinOf(Xs(c)) == 7 &&
      MaxOf(Picked(Xs(c), flags)) == 8 && MaxOf(Picked(Ys(c), flags)) == 18
  {
    assert Xs(c) == [8, 9, 7, 9];
    assert Ys(c) == [18, 18, 18, 17];
    MaxOfFour(Xs(c));
    MinOfFour(Xs(c));
    PickedCrash(Xs(c));
    PickedCrash(Ys(c));
    assert MaxOf([8, 7]) == 8;
    assert MaxOf([18, 18]) == 18;
  }

  /** With the stale flags zx = 10: the source's lookup `field[17][10]` fails, the corrected
      nudge finds no free cell and leaves the piece where it is. */
  lemma CrashNudgeY()
    ensures var h := [Pos(10, 18), Pos(11, 18), Pos(9, 18), Pos(11, 17)];
      NudgeYAsWritten(CrashField(), h, [true, false, true, false]) == None &&
      NudgeY(CrashField(), h, [true, false, true, false]) == h
  {
    var h := [Pos(10, 18), Pos(11, 18), Pos(9, 18), Pos(11, 17)];
    CrashVerticalLookup(h);
    ShiftZero(h);
  }

  /** zx = 10, zy = 18, rows 17..18: the lookup above (10, 18) is off the board. */
  lemma CrashVerticalLookup(h: seq<Pos>)
    requires h == [Pos(10, 18), Pos(11, 18), Pos(9, 18), Pos(11, 17)]
    ensures NudgeYAsWritten(CrashField(), h, [true, false, true, false]) == None
    ensures VerticalStep(CrashField(), h, [true, false, true, false]) == 0
  {
    CrashVerticalExtremes(h);
    assert PyCell(CrashField(), 17, 10) == None;
  }

  lemma CrashVerticalExtremes(h: seq<Pos>)
    requires h == [Pos(10, 18), Pos(11, 18), Pos(9, 18), Pos(11, 17)]
    ensures var flags := [true, false, true, false];
      MaxOf(Ys(h)) == 18 && MinOf(Ys(h)) == 17 &&
      MaxOf(Picked(Xs(h), flags)) == 10 && MaxOf(Picked(Ys(h), flags)) == 18
  {
    assert Xs(h) == [10, 11, 9, 11];
    assert Ys(h) == [18, 18, 18, 17];
    MaxOfFour(Ys(h));
    MinOfFour(Ys(h));
    PickedCrash(Xs(h));
    PickedCrash(Ys(h));
    assert MaxOf([10, 9]) == 10;
    assert MaxOf([18, 18]) == 18;
  }

  /** The crash's flags pick entries 0 and 2. */
  lemma PickedCrash(xs: seq<int>)
    requires |xs| == 4
    ensures Picked(xs, [true, false, true, false]) == [xs[0], xs[2]]
  {
    var flags := [true, false, true, false];
    assert Picked(xs[3..], flags[3..]) == [] by {
      assert xs[3..][1..] == [] && flags[3..][1..] == [];
    }
    assert Picked(xs[2..], flags[2..]) == [xs[2]] by {
      assert xs[2..][1..] == xs[3..] && flags[2..][1..] == flags[3..];
    }
    assert Picked(xs[1..], flags[1..]) == [xs[2]] by {
      assert xs[1..][1..] == xs[2..] && flags[1..][1..] == flags[2..];
    }
  }
}
