/** The two translations of the active piece that the frame loop performs cell by cell with a
    rollback: the horizontal move and the one-row fall of gravity. */
module Moves {
  import opened Shapes
  import opened Board

  /** Cell `p` of a piece in play moved to column `x`, row `y` is a legal, empty target: the column
      on the board and `field[y][x]` empty, with a row above the board read from the bottom rows as
      Python's negative indices do. */
  predicate FreeAt(f: Field, y: int, x: int)
    requires IsField(f) && -Rows <= y < Rows
  {
    0 <= x < Cols && At(f, y, x) == Empty
  }

  /** Every cell can move `dx` columns: the source's per-cell test passes for all four. */
  predicate CanShift(f: Field, fig: seq<Pos>, dx: int)
    requires IsField(f) && InPlay(fig)
  {
    forall i :: 0 <= i < 4 ==> FreeAt(f, fig[i].y, fig[i].x + dx)
  }

  /** The horizontal move: all four cells move, or (the first failing cell restores the copy) none. */
  function MoveOutcome(f: Field, fig: seq<Pos>, dx: int): seq<Pos>
    requires IsField(f) && InPlay(fig)
  {
    if CanShift(f, fig, dx) then Shift(fig, dx, 0) else fig
  }

  /** The move is atomic and safe: the piece stays in play, and it either is unchanged or has every
      cell moved by exactly `dx` onto an empty on-board column. */
  lemma MoveSafe(f: Field, fig: seq<Pos>, dx: int)
    requires IsField(f) && InPlay(fig)
    ensures var r := MoveOutcome(f, fig, dx);
      InPlay(r) &&
      (r == fig ||
       (forall i :: 0 <= i < 4 ==> r[i] == Pos(fig[i].x + dx, fig[i].y) && FreeAt(f, r[i].y, r[i].x)))
  {
  }

  /** A move that succeeded from a position on empty cells can be undone by the opposite move. */
  lemma {:induction false} MoveReversible(f: Field, fig: seq<Pos>, dx: int)
    requires IsField(f) && InPlay(fig)
    requires forall i :: 0 <= i < 4 ==> At(f, fig[i].y, fig[i].x) == Empty
    requires CanShift(f, fig, dx)
    ensures InPlay(MoveOutcome(f, fig, dx))
    ensures MoveOutcome(f, MoveOutcome(f, fig, dx), -dx) == fig
  {
    var moved := Shift(fig, dx, 0);
    assert forall i :: 0 <= i < 4 ==> moved[i].x + -dx == fig[i].x && moved[i].y == fig[i].y;
    assert CanShift(f, moved, -dx);
    ShiftInverse(fig, dx, 0);
  }

  /** On an empty board the move succeeds exactly when the piece stays within columns 0..9. */
  lemma {:induction false} EmptyBoardMove(fig: seq<Pos>, dx: int)
    requires InPlay(fig)
    ensures CanShift(EmptyField(), fig, dx) <==> 0 <= MinOf(Xs(fig)) + dx && MaxOf(Xs(fig)) + dx < Cols
  {
    var f := EmptyField();
    var xs := Xs(fig);
    var lo, hi := MinOf(xs), MaxOf(xs);
    if CanShift(f, fig, dx) {
      var j :| 0 <= j < 4 && xs[j] == lo;
      var k :| 0 <= k < 4 && xs[k] == hi;
      assert FreeAt(f, fig[j].y, fig[j].x + dx);
      assert FreeAt(f, fig[k].y, fig[k].x + dx);
    }
    if 0 <= lo + dx && hi + dx < Cols {
      forall i | 0 <= i < 4 ensures FreeAt(f, fig[i].y, fig[i].x + dx) {
        assert lo <= xs[i] <= hi;
      }
    }
  }

  // ---------------------------------------------------------------------------
  // Gravity

  /** Every cell can drop one row: none would pass row 19 or land on a block. */
  predicate CanFall(f: Field, fig: seq<Pos>)
    requires IsField(f) && InPlay(fig)
  {
    forall i :: 0 <= i < 4 ==> fig[i].y + 1 < Rows && FreeAt(f, fig[i].y + 1, fig[i].x)
  }

  /** A fall keeps the piece in play. */
  lemma FallInPlay(f: Field, fig: seq<Pos>)
    requires IsField(f) && InPlay(fig) && CanFall(f, fig)
    ensures InPlay(Shift(fig, 0, 1))
  {
  }

  /** On an empty board a piece falls exactly while its lowest cell is above row 19. */
  lemma {:induction false} EmptyBoardFall(fig: seq<Pos>)
    requires InPlay(fig)
    ensures CanFall(EmptyField(), fig) <==> MaxOf(Ys(fig)) < Rows - 1
  {
    var f := EmptyField();
    var ys := Ys(fig);
    var hi := MaxOf(ys);
    if CanFall(f, fig) {
      var k :| 0 <= k < 4 && ys[k] == hi;
      assert fig[k].y + 1 < Rows;
    }
    if hi < Rows - 1 {
      forall i | 0 <= i < 4 ensures fig[i].y + 1 < Rows && FreeAt(f, fig[i].y + 1, fig[i].x) {
        assert ys[i] <= hi;
      }
    }
  }

  /** Cell `t` of a freshly spawned piece already holds a block: the game is over. */
  predicate Blocks(f: Field, fig: seq<Pos>)
    requires IsField(f) && InPlay(fig)
  {
    exists t :: 0 <= t < 4 && At(f, fig[t].y, fig[t].x) != Empty
  }

  /** Locking a piece that lies on the board over empty cells adds exactly its four blocks. */
  lemma {:induction false} LockAddsFour(f: Field, fig: seq<Pos>, c: Rgb)
    requires IsField(f) && InPlay(fig)
    requires forall i :: 0 <= i < 4 ==> InGrid(fig[i]) && f[fig[i].y][fig[i].x] == Empty
    requires forall i, j :: 0 <= i < j < 4 ==> fig[i] != fig[j]
    ensures CountAll(Paint(f, fig, Block(c))) == CountAll(f) + 4
  {
    PaintAddsCells(f, fig, Block(c));
  }
}
