/** The 20 x 10 playing field (`self.field`): cells, Python-style lookups, the full-row
    count, the WHITE flagging of full rows, row compaction and the painting of a locked piece. */
module Board {
  import opened Shapes

  datatype Option<T> = None | Some(value: T)

  datatype Rgb = Rgb(r: int, g: int, b: int)

  /** A cell is 0 in the source (empty, falsy) or the colour of a locked block (truthy). */
  datatype Cell = Empty | Block(color: Rgb)

  /** The colour that marks a full row while it waits to be cleared ('#fafafa'). */
  const White: Rgb := Rgb(250, 250, 250)

  /** Rows from the top (index 0) to the bottom (index 19), each of 10 cells. */
  type Field = seq<seq<Cell>>

  predicate IsField(f: Field)
  {
    |f| == Rows && forall y :: 0 <= y < Rows ==> |f[y]| == Cols
  }

  function EmptyField(): (f: Field)
    ensures IsField(f)
    ensures forall y, x :: 0 <= y < Rows && 0 <= x < Cols ==> f[y][x] == Empty
  {
    seq(Rows, y => seq(Cols, x => Empty))
  }

  // ---------------------------------------------------------------------------
  // Lookups

  /** Python's list index: a negative index counts from the end of the list. */
  function Wrap(i: int, n: int): int
    requires -n <= i < n
  {
    if i < 0 then i + n else i
  }

  /** `field[y][x]` where both indices are legal Python indices. */
  function At(f: Field, y: int, x: int): Cell
    requires IsField(f) && -Rows <= y < Rows && -Cols <= x < Cols
  {
    f[Wrap(y, Rows)][Wrap(x, Cols)]
  }

  /** `field[y][x]` evaluated by Python: None where Python raises IndexError. */
  function PyCell(f: Field, y: int, x: int): Option<Cell>
    requires IsField(f)
  {
    if -Rows <= y < Rows && -Cols <= x < Cols then Some(At(f, y, x)) else None
  }

  /** `not field[y][x]` for a lookup that cannot fail; an index Python would reject
      counts as not free. */
  predicate Free(f: Field, y: int, x: int)
    requires IsField(f)
  {
    PyCell(f, y, x) == Some(Empty)
  }

  predicate InGrid(p: Pos)
  {
    0 <= p.x < Cols && 0 <= p.y < Rows
  }

  /** An on-board cell that holds a block. */
  predicate Occupied(f: Field, p: Pos)
    requires IsField(f)
  {
    InGrid(p) && f[p.y][p.x] != Empty
  }

  // ---------------------------------------------------------------------------
  // Full rows

  /** The number of non-empty cells of a row. */
  function Filled(row: seq<Cell>): (n: nat)
    ensures n <= |row|
    ensures n == |row| <==> forall i :: 0 <= i < |row| ==> row[i] != Empty
    ensures n == 0 <==> forall i :: 0 <= i < |row| ==> row[i] == Empty
  {
    if row == [] then 0
    else
      var init := row[..|row| - 1];
      assert forall i :: 0 <= i < |init| ==> init[i] == row[i];
      Filled(init) + (if row[|row| - 1] != Empty then 1 else 0)
  }

  predicate IsFull(row: seq<Cell>)
  {
    Filled(row) == Cols
  }

  /** The source's column loop: `count += 1` for every truthy cell of the row. */
  method CountFilled(row: seq<Cell>) returns (count: nat)
    requires |row| == Cols
    ensures count == Filled(row)
  {
    count := 0;
    var i := 0;
    while i < Cols
      invariant 0 <= i <= Cols
      invariant count == Filled(row[..i])
    {
      assert row[..i + 1][..i] == row[..i];
      if row[i] != Empty {
        count := count + 1;
      }
      i := i + 1;
    }
    assert row[..Cols] == row;
  }

  function WhiteRow(): seq<Cell>
  {
    seq(Cols, _ => Block(White))
  }

  predicate HasFullRow(f: Field)
    requires IsField(f)
  {
    exists y :: 0 <= y < Rows && IsFull(f[y])
  }

  /** Every full row overwritten with WHITE, every other row as it was. */
  function Flagged(f: Field): Field
    requires IsField(f)
  {
    seq(Rows, y requires 0 <= y < Rows => if IsFull(f[y]) then WhiteRow() else f[y])
  }

  /** Flagging keeps the field's shape and exactly which rows are full. */
  lemma {:induction false} FlaggedKeepsFullRows(f: Field)
    requires IsField(f)
    ensures IsField(Flagged(f))
    ensures forall y :: 0 <= y < Rows ==> (IsFull(Flagged(f)[y]) <==> IsFull(f[y]))
    ensures HasFullRow(Flagged(f)) <==> HasFullRow(f)
  {
    var w := WhiteRow();
    assert Filled(w) == Cols by {
      assert forall i :: 0 <= i < |w| ==> w[i] != Empty;
    }
  }

  /** A second scan over a flagged field changes nothing. */
  lemma {:induction false} FlaggedIdempotent(f: Field)
    requires IsField(f)
    ensures IsField(Flagged(f)) && Flagged(Flagged(f)) == Flagged(f)
  {
    FlaggedKeepsFullRows(f);
    var g := Flagged(f);
    forall y | 0 <= y < Rows ensures Flagged(g)[y] == g[y] {
    }
  }

  // ---------------------------------------------------------------------------
  // Compaction

  /** The rows that are not full, in their top-to-bottom order. */
  function NonFull(rows: seq<seq<Cell>>): (r: seq<seq<Cell>>)
    ensures |r| <= |rows|
    ensures forall i :: 0 <= i < |r| ==> !IsFull(r[i])
  {
    if rows == [] then []
    else (if IsFull(rows[0]) then [] else [rows[0]]) + NonFull(rows[1..])
  }

  /** The number of full rows. */
  function FullCount(rows: seq<seq<Cell>>): (n: nat)
    ensures n + |NonFull(rows)| == |rows|
  {
    if rows == [] then 0
    else (if IsFull(rows[0]) then 1 else 0) + FullCount(rows[1..])
  }

  lemma {:induction false} NonFullAppend(a: seq<seq<Cell>>, b: seq<seq<Cell>>)
    ensures NonFull(a + b) == NonFull(a) + NonFull(b)
    ensures FullCount(a + b) == FullCount(a) + FullCount(b)
  {
    if a == [] {
      assert a + b == b;
    } else {
      assert (a + b)[1..] == a[1..] + b;
      NonFullAppend(a[1..], b);
    }
  }

  /** The field after the source's bottom-up copying pass: the non-full rows, in order, fill the
      bottom; the rows above them are not cleared, and the topmost of those receives row 0 when
      row 0 was full (it is the last row copied there). With no full row nothing moves. */
  function Compacted(f: Field): Field
    requires IsField(f)
  {
    var keep := NonFull(f);
    var line := Rows - 1 - |keep|;
    if line < 0 then f
    else f[..line] + [if IsFull(f[0]) then f[0] else f[line]] + keep
  }

  /** Compaction yields a field whose bottom rows are exactly the non-full rows in their old order
      and whose rows above `line` are untouched. */
  lemma {:induction false} CompactedShape(f: Field)
    requires IsField(f)
    ensures var g := Compacted(f);
            var k := |NonFull(f)|;
            IsField(g) &&
            g[Rows - k..] == NonFull(f) &&
            (forall y :: Rows - k <= y < Rows ==> !IsFull(g[y])) &&
            (forall y :: 0 <= y < Rows - 1 - k ==> g[y] == f[y])
  {
    var keep := NonFull(f);
    var k := |keep|;
    var g := Compacted(f);
    NonFullFrom(f);
    if Rows - 1 - k < 0 {
      NonFullKeepsAll(f);
    } else {
      var line := Rows - 1 - k;
      var mid := if IsFull(f[0]) then f[0] else f[line];
      assert g == f[..line] + [mid] + keep;
      assert g[Rows - k..] == keep;
      forall y | 0 <= y < Rows ensures |g[y]| == Cols {
        if y >= Rows - k {
          assert g[y] == keep[y - (Rows - k)] && g[y] in f;
          var z :| 0 <= z < Rows && f[z] == g[y];
        }
      }
      forall y | Rows - k <= y < Rows ensures !IsFull(g[y]) {
        assert g[y] == keep[y - (Rows - k)];
      }
    }
  }

  /** Every kept row is a row of the input. */
  lemma {:induction false} NonFullFrom(rows: seq<seq<Cell>>)
    ensures forall i :: 0 <= i < |NonFull(rows)| ==> NonFull(rows)[i] in rows
  {
    if rows != [] {
      NonFullFrom(rows[1..]);
      var r := NonFull(rows);
      var rest := NonFull(rows[1..]);
      forall i | 0 <= i < |r| ensures r[i] in rows {
        if !IsFull(rows[0]) && i == 0 {
        } else {
          var j := if IsFull(rows[0]) then i else i - 1;
          assert r[i] == rest[j] && rest[j] in rows[1..];
        }
      }
    }
  }

  lemma {:induction false} NonFullKeepsAll(rows: seq<seq<Cell>>)
    requires |NonFull(rows)| == |rows|
    ensures NonFull(rows) == rows
  {
    if rows != [] {
      if !IsFull(rows[0]) {
        NonFullKeepsAll(rows[1..]);
        assert rows == [rows[0]] + rows[1..];
      }
    }
  }

  /** A field with exactly one full row r: one line is counted and the new field is row 0 on top of
      every row but r. For r >= 1 row r disappears, the rows above it move down by one and row 0
      stays where it was (it is not cleared); for r = 0 the field comes back unchanged, the full
      row 0 included. */
  lemma {:induction false} ClearOneRow(f: Field, r: nat)
    requires IsField(f) && r < Rows
    requires IsFull(f[r])
    requires forall y :: 0 <= y < Rows && y != r ==> !IsFull(f[y])
    ensures FullCount(f) == 1
    ensures Compacted(f) == [f[0]] + f[..r] + f[r + 1..]
  {
    DropOneRow(f, r);
    CompactedDropping(f, r);
  }

  /** Compaction when the kept rows are all rows but `r`: row 0 stays on top of them. */
  lemma CompactedDropping(f: Field, r: nat)
    requires IsField(f) && r < Rows && NonFull(f) == f[..r] + f[r + 1..]
    ensures Compacted(f) == [f[0]] + f[..r] + f[r + 1..]
  {
    assert |f[..r] + f[r + 1..]| == Rows - 1;
    CompactedBelowTop(f);
    assert [f[0]] + (f[..r] + f[r + 1..]) == [f[0]] + f[..r] + f[r + 1..];
  }

  /** With a single full row, compaction puts row 0 on top of the kept rows. */
  lemma CompactedBelowTop(f: Field)
    requires IsField(f) && |NonFull(f)| == Rows - 1
    ensures Compacted(f) == [f[0]] + NonFull(f)
  {
    assert f[..0] == [];
  }

  lemma {:induction false} DropOneRow(f: Field, r: nat)
    requires IsField(f) && r < Rows
    requires IsFull(f[r])
    requires forall y :: 0 <= y < Rows && y != r ==> !IsFull(f[y])
    ensures NonFull(f) == f[..r] + f[r + 1..] && FullCount(f) == 1
  {
    SplitAt(f, r);
    DropMiddle(f[..r], f[r], f[r + 1..]);
  }

  lemma SplitAt<T>(s: seq<T>, r: nat)
    requires r < |s|
    ensures s == s[..r] + [s[r]] + s[r + 1..]
  {
  }

  lemma {:induction false} DropMiddle(a: seq<seq<Cell>>, x: seq<Cell>, b: seq<seq<Cell>>)
    requires forall i :: 0 <= i < |a| ==> !IsFull(a[i])
    requires forall i :: 0 <= i < |b| ==> !IsFull(b[i])
    requires IsFull(x)
    ensures NonFull(a + [x] + b) == a + b && FullCount(a + [x] + b) == 1
  {
    AllNonFull(a);
    AllNonFull(b);
    assert NonFull([x]) == [] && FullCount([x]) == 1 by {
      assert [x][1..] == [];
    }
    NonFullAppend(a, [x]);
    assert NonFull(a + [x]) == a by {
      assert a + [] == a;
    }
    NonFullAppend(a + [x], b);
  }

  lemma {:induction false} AllNonFull(rows: seq<seq<Cell>>)
    requires forall i :: 0 <= i < |rows| ==> !IsFull(rows[i])
    ensures NonFull(rows) == rows && FullCount(rows) == 0
  {
    if rows != [] {
      AllNonFull(rows[1..]);
    }
  }

  // ---------------------------------------------------------------------------
  // Locking a piece

  /** A cell the source can write with `field[p.y][p.x] = colour`: rows -20..-1 wrap to the bottom. */
  predicate Writable(p: Pos)
  {
    -Rows <= p.y < Rows && 0 <= p.x < Cols
  }

  function SetCell(f: Field, p: Pos, c: Cell): (g: Field)
    requires IsField(f) && Writable(p)
    ensures IsField(g)
  {
    var y := Wrap(p.y, Rows);
    f[y := f[y][p.x := c]]
  }

  /** The cells written one after another with the same value. */
  function Paint(f: Field, cells: seq<Pos>, c: Cell): (g: Field)
    requires IsField(f) && forall i :: 0 <= i < |cells| ==> Writable(cells[i])
    ensures IsField(g)
  {
    if cells == [] then f
    else SetCell(Paint(f, cells[..|cells| - 1], c), cells[|cells| - 1], c)
  }

  /** Some cell of the list is written to row y, column x. */
  predicate Covers(cells: seq<Pos>, y: int, x: int)
    requires forall i :: 0 <= i < |cells| ==> Writable(cells[i])
  {
    exists i :: 0 <= i < |cells| && Writable(cells[i]) && Wrap(cells[i].y, Rows) == y && cells[i].x == x
  }

  /** Painting writes exactly the covered cells and leaves every other cell as it was. */
  lemma {:induction false} PaintAt(f: Field, cells: seq<Pos>, c: Cell, y: int, x: int)
    requires IsField(f) && forall i :: 0 <= i < |cells| ==> Writable(cells[i])
    requires 0 <= y < Rows && 0 <= x < Cols
    ensures Paint(f, cells, c)[y][x] == if Covers(cells, y, x) then c else f[y][x]
  {
    if cells != [] {
      var init := cells[..|cells| - 1];
      PaintAt(f, init, c, y, x);
      assert forall i :: 0 <= i < |init| ==> init[i] == cells[i];
      if Covers(cells, y, x) && !Covers(init, y, x) {
        var i :| 0 <= i < |cells| && Writable(cells[i]) && Wrap(cells[i].y, Rows) == y && cells[i].x == x;
        assert i == |cells| - 1;
      }
    }
  }

  /** The number of occupied cells of the whole field. */
  function CountAll(rows: seq<seq<Cell>>): nat
  {
    if rows == [] then 0 else Filled(rows[0]) + CountAll(rows[1..])
  }

  lemma {:induction false} FilledSet(row: seq<Cell>, x: nat, c: Cell)
    requires x < |row| && row[x] == Empty && c != Empty
    ensures Filled(row[x := c]) == Filled(row) + 1
  {
    var row' := row[x := c];
    var n := |row|;
    assert Filled(row') == Filled(row'[..n - 1]) + (if row'[n - 1] != Empty then 1 else 0);
    assert Filled(row) == Filled(row[..n - 1]) + (if row[n - 1] != Empty then 1 else 0);
    if x == n - 1 {
      assert row'[..n - 1] == row[..n - 1];
    } else {
      assert row'[..n - 1] == row[..n - 1][x := c];
      FilledSet(row[..n - 1], x, c);
    }
  }

  lemma {:induction false} CountAllSet(rows: seq<seq<Cell>>, y: nat, row: seq<Cell>)
    requires y < |rows|
    ensures CountAll(rows[y := row]) + Filled(rows[y]) == CountAll(rows) + Filled(row)
  {
    if y > 0 {
      assert rows[y := row][1..] == rows[1..][y - 1 := row];
      CountAllSet(rows[1..], y - 1, row);
    } else {
      assert rows[y := row][1..] == rows[1..];
    }
  }

  /** Locking four distinct, free, on-board cells adds exactly four occupied cells. */
  lemma {:induction false} PaintAddsCells(f: Field, cells: seq<Pos>, c: Cell)
    requires IsField(f) && c != Empty
    requires forall i :: 0 <= i < |cells| ==> InGrid(cells[i]) && f[cells[i].y][cells[i].x] == Empty
    requires forall i, j :: 0 <= i < j < |cells| ==> cells[i] != cells[j]
    ensures forall i :: 0 <= i < |cells| ==> Writable(cells[i])
    ensures CountAll(Paint(f, cells, c)) == CountAll(f) + |cells|
  {
    assert forall i :: 0 <= i < |cells| ==> InGrid(cells[i]) ==> Writable(cells[i]);
    if cells != [] {
      var n := |cells|;
      var init := cells[..n - 1];
      var p := cells[n - 1];
      assert forall i :: 0 <= i < |init| ==> init[i] == cells[i];
      PaintAddsCells(f, init, c);
      var g := Paint(f, init, c);
      PaintAt(f, init, c, p.y, p.x);
      assert !Covers(init, p.y, p.x) by {
        forall i | 0 <= i < |init|
          ensures !(Writable(init[i]) && Wrap(init[i].y, Rows) == p.y && init[i].x == p.x)
        {
          assert init[i] == cells[i] && cells[i] != p && InGrid(cells[i]);
        }
      }
      assert g[p.y][p.x] == Empty;
      FilledSet(g[p.y], p.x, c);
      CountAllSet(g, p.y, g[p.y][p.x := c]);
    }
  }
}
