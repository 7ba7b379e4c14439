/** Cell positions, the seven tetromino templates, translation and the quarter-turn
    rotation about a piece's pivot (cell 0). */
module Shapes {

  /** A board position: `x` is the column (0..9 on the board), `y` the row (0 at the top,
      19 at the bottom; negative rows lie above the visible board). */
  datatype Pos = Pos(x: int, y: int)

  const Cols: int := 10
  const Rows: int := 20

  /** The seven shape templates: the offsets of the four cells, the pivot first. */
  const Templates: seq<seq<(int, int)>> := [
    [(-1, 0), (-2, 0), (0, 0), (1, 0)],
    [(0, -1), (-1, -1), (-1, 0), (0, 0)],
    [(-1, 0), (-1, 1), (0, 0), (0, -1)],
    [(0, 0), (-1, 0), (0, 1), (-1, -1)],
    [(0, 0), (0, -1), (0, 1), (-1, -1)],
    [(-1, 0), (-1, -1), (-1, 1), (0, -1)],
    [(0, 0), (0, -1), (0, 1), (-1, 0)]
  ]

  /** Template `k` placed at the spawn offset: every cell moved 5 columns right and 1 row down. */
  function SpawnFigure(k: nat): (fig: seq<Pos>)
    requires k < |Templates|
    ensures |fig| == 4
  {
    assert |Templates[k]| == 4;
    seq(4, i requires 0 <= i < 4 => Pos(Templates[k][i].0 + 5, Templates[k][i].1 + 1))
  }

  // ---------------------------------------------------------------------------
  // Extremes of coordinate lists (Python's max/min over a non-empty list)

  function MaxOf(xs: seq<int>): (m: int)
    requires |xs| > 0
    ensures m in xs
    ensures forall i :: 0 <= i < |xs| ==> xs[i] <= m
  {
    if |xs| == 1 then xs[0]
    else
      var rest := MaxOf(xs[1..]);
      if xs[0] >= rest then xs[0] else rest
  }

  function MinOf(xs: seq<int>): (m: int)
    requires |xs| > 0
    ensures m in xs
    ensures forall i :: 0 <= i < |xs| ==> m <= xs[i]
  {
    if |xs| == 1 then xs[0]
    else
      var rest := MinOf(xs[1..]);
      if xs[0] <= rest then xs[0] else rest
  }

  function Xs(c: seq<Pos>): (xs: seq<int>)
    ensures |xs| == |c| && forall i :: 0 <= i < |c| ==> xs[i] == c[i].x
  {
    seq(|c|, i requires 0 <= i < |c| => c[i].x)
  }

  function Ys(c: seq<Pos>): (ys: seq<int>)
    ensures |ys| == |c| && forall i :: 0 <= i < |c| ==> ys[i] == c[i].y
  {
    seq(|c|, i requires 0 <= i < |c| => c[i].y)
  }

  /** The entries of `xs` whose flag is set, in order (a filtered list comprehension). */
  function Picked(xs: seq<int>, flags: seq<bool>): (r: seq<int>)
    requires |xs| == |flags|
    ensures |r| > 0 <==> true in flags
  {
    if |xs| == 0 then []
    else
      var rest := Picked(xs[1..], flags[1..]);
      assert flags == [flags[0]] + flags[1..];
      if flags[0] then [xs[0]] + rest else rest
  }

  /** The picked entries are exactly the flagged ones. */
  lemma {:induction false} PickedExactly(xs: seq<int>, flags: seq<bool>)
    requires |xs| == |flags|
    ensures forall i :: 0 <= i < |xs| && flags[i] ==> xs[i] in Picked(xs, flags)
    ensures forall v :: v in Picked(xs, flags) ==> exists i :: 0 <= i < |xs| && flags[i] && xs[i] == v
  {
    if |xs| > 0 {
      PickedExactly(xs[1..], flags[1..]);
      assert forall i :: 1 <= i < |xs| ==> xs[i] == xs[1..][i - 1] && flags[i] == flags[1..][i - 1];
    }
  }

  // ---------------------------------------------------------------------------
  // Translation and rotation

  /** Every cell moved by (dx, dy). */
  function Shift(c: seq<Pos>, dx: int, dy: int): (r: seq<Pos>)
    ensures |r| == |c|
    ensures forall i :: 0 <= i < |c| ==> r[i] == Pos(c[i].x + dx, c[i].y + dy)
  {
    seq(|c|, i requires 0 <= i < |c| => Pos(c[i].x + dx, c[i].y + dy))
  }

  /** A quarter turn of `p` about the pivot `center`: x' = cx - (y - cy), y' = cy + (x - cx). */
  function RotateAbout(center: Pos, p: Pos): Pos
  {
    Pos(center.x - (p.y - center.y), center.y + (p.x - center.x))
  }

  /** Every cell of a piece turned about its pivot, cell 0. */
  function Rotated(c: seq<Pos>): (r: seq<Pos>)
    requires |c| > 0
    ensures |r| == |c|
    ensures r[0] == c[0]
  {
    seq(|c|, i requires 0 <= i < |c| => RotateAbout(c[0], c[i]))
  }

  /** Four quarter turns bring every cell back to where it started. */
  lemma {:induction false} RotatedFourTimes(c: seq<Pos>)
    requires |c| > 0
    ensures Rotated(Rotated(Rotated(Rotated(c)))) == c
  {
    var r1 := Rotated(c);
    var r2 := Rotated(r1);
    var r3 := Rotated(r2);
    var r4 := Rotated(r3);
    forall i | 0 <= i < |c| ensures r4[i] == c[i] {
      assert r1[i] == RotateAbout(c[0], c[i]);
      assert r2[i] == RotateAbout(c[0], r1[i]);
      assert r3[i] == RotateAbout(c[0], r2[i]);
      assert r4[i] == RotateAbout(c[0], r3[i]);
    }
  }

  /** Every cell lies within two columns and two rows of the pivot: true of every template,
      kept by translation and by rotation. */
  predicate Shaped(c: seq<Pos>)
  {
    |c| == 4 &&
    forall i :: 0 <= i < 4 ==> -2 <= c[i].x - c[0].x <= 2 && -2 <= c[i].y - c[0].y <= 2
  }

  /** Where the engine keeps the active piece: Shaped, every cell in columns 0..9 and on or above
      row 19, and the pivot on the board (so no cell is more than two rows above it). */
  predicate InPlay(c: seq<Pos>)
  {
    Shaped(c) && c[0].y >= 0 && forall i :: 0 <= i < 4 ==> 0 <= c[i].x < Cols && c[i].y < Rows
  }

  /** Every spawned piece starts in play, inside rows 0..2. */
  lemma {:induction false} SpawnInPlay(k: nat)
    requires k < |Templates|
    ensures InPlay(SpawnFigure(k))
    ensures forall i :: 0 <= i < 4 ==> 0 <= SpawnFigure(k)[i].y <= 2
  {
    var f := SpawnFigure(k);
    assert f[0] == Pos(Templates[k][0].0 + 5, Templates[k][0].1 + 1);
    assert f[1] == Pos(Templates[k][1].0 + 5, Templates[k][1].1 + 1);
    assert f[2] == Pos(Templates[k][2].0 + 5, Templates[k][2].1 + 1);
    assert f[3] == Pos(Templates[k][3].0 + 5, Templates[k][3].1 + 1);
  }

  /** `a` is `b` moved by some translation: the offsets from the pivot agree cell by cell. */
  predicate SameShape(a: seq<Pos>, b: seq<Pos>)
  {
    |a| == |b| && |a| > 0 &&
    forall i :: 0 <= i < |a| ==> a[i].x - a[0].x == b[i].x - b[0].x && a[i].y - a[0].y == b[i].y - b[0].y
  }

  lemma RotatedShaped(c: seq<Pos>)
    requires Shaped(c)
    ensures Shaped(Rotated(c))
  {
  }

  /** Moving by (dx, dy) and back by (-dx, -dy) restores the piece. */
  lemma {:induction false} ShiftInverse(c: seq<Pos>, dx: int, dy: int)
    ensures Shift(Shift(c, dx, dy), -dx, -dy) == c
  {
    var r := Shift(Shift(c, dx, dy), -dx, -dy);
    assert forall i :: 0 <= i < |c| ==> r[i] == c[i];
  }

  /** A shift by (0, 0) leaves the piece where it is. */
  lemma {:induction false} ShiftZero(c: seq<Pos>)
    ensures Shift(c, 0, 0) == c
  {
    var r := Shift(c, 0, 0);
    assert forall i :: 0 <= i < |c| ==> r[i] == c[i];
  }

  /** The bounding box of the piece is 2 x 2 (extents 1 and 1): only the square has it. */
  predicate IsSquare(c: seq<Pos>)
    requires |c| > 0
  {
    MaxOf(Xs(c)) - MinOf(Xs(c)) == 1 && MaxOf(Ys(c)) - MinOf(Ys(c)) == 1
  }

  /** Exactly one template, the second (the square), has 2 x 2 extents. */
  lemma {:induction false} OnlyTheSquareIsSquare(k: nat)
    requires k < |Templates|
    ensures IsSquare(SpawnFigure(k)) <==> k == 1
  {
    var f := SpawnFigure(k);
    var t := Templates[k];
    assert f == [Pos(t[0].0 + 5, t[0].1 + 1), Pos(t[1].0 + 5, t[1].1 + 1),
                 Pos(t[2].0 + 5, t[2].1 + 1), Pos(t[3].0 + 5, t[3].1 + 1)];
    SquareOfFour(f);
    // One case per template.
    if k == 0 {
    } else if k == 1 {
    } else if k == 2 {
    } else if k == 3 {
    } else if k == 4 {
    } else if k == 5 {
    } else {
    }
  }

  /** The square test of a four-cell piece, spelled out on its coordinates. */
  lemma SquareOfFour(c: seq<Pos>)
    requires |c| == 4
    ensures IsSquare(c) <==>
      Max(Max(c[0].x, c[1].x), Max(c[2].x, c[3].x)) - Min(Min(c[0].x, c[1].x), Min(c[2].x, c[3].x)) == 1 &&
      Max(Max(c[0].y, c[1].y), Max(c[2].y, c[3].y)) - Min(Min(c[0].y, c[1].y), Min(c[2].y, c[3].y)) == 1
  {
    var xs, ys := Xs(c), Ys(c);
    assert xs == [c[0].x, c[1].x, c[2].x, c[3].x];
    assert ys == [c[0].y, c[1].y, c[2].y, c[3].y];
    MaxOfFour(xs);
    MinOfFour(xs);
    MaxOfFour(ys);
    MinOfFour(ys);
  }

  lemma MaxOfFour(xs: seq<int>)
    requires |xs| == 4
    ensures MaxOf(xs) == Max(Max(xs[0], xs[1]), Max(xs[2], xs[3]))
  {
    var m := MaxOf(xs);
    assert m == xs[0] || m == xs[1] || m == xs[2] || m == xs[3];
  }

  lemma MinOfFour(xs: seq<int>)
    requires |xs| == 4
    ensures MinOf(xs) == Min(Min(xs[0], xs[1]), Min(xs[2], xs[3]))
  {
    var m := MinOf(xs);
    assert m == xs[0] || m == xs[1] || m == xs[2] || m == xs[3];
  }

  function Max(a: int, b: int): int { if a >= b then a else b }

  function Min(a: int, b: int): int { if a <= b then a else b }

  /** Python's abs. */
  function Abs(a: int): int { if a < 0 then -a else a }
}
