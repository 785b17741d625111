/** Constant tables of SimpleJPEG. */
module JpegTables {

  /** Row and column of a coefficient: its vertical and its horizontal frequency. */
  datatype Cell = Cell(row: nat, col: nat)

  /** The walk of T.81 Figure A.6: up along the even anti-diagonals, down along the odd ones, and at the border of the
      block to the next one. */
  function NextCell(c: Cell): Cell {
    if (c.row + c.col) % 2 == 0 then
      if c.col == 7 then Cell(c.row + 1, 7) else if c.row == 0 then Cell(0, c.col + 1) else Cell(c.row - 1, c.col + 1)
    else
      if c.row == 7 then Cell(7, c.col + 1) else if c.col == 0 then Cell(c.row + 1, 0) else Cell(c.row + 1, c.col - 1)
  }

  function Walk(j: nat): Cell { if j == 0 then Cell(0, 0) else NextCell(Walk(j - 1)) }

  /** The transform leaves its output transposed, hence this is the transposed zig-zag sequence of T.81. */
  function Zigzag(j: nat): (i: nat)
    requires j < 64
    ensures i < 64
  {
    match j
    case 0 => 0 case 1 => 8 case 2 => 1 case 3 => 2 case 4 => 9 case 5 => 16 case 6 => 24 case 7 => 17
    case 8 => 10 case 9 => 3 case 10 => 4 case 11 => 11 case 12 => 18 case 13 => 25 case 14 => 32 case 15 => 40
    case 16 => 33 case 17 => 26 case 18 => 19 case 19 => 12 case 20 => 5 case 21 => 6 case 22 => 13 case 23 => 20
    case 24 => 27 case 25 => 34 case 26 => 41 case 27 => 48 case 28 => 56 case 29 => 49 case 30 => 42 case 31 => 35
    case 32 => 28 case 33 => 21 case 34 => 14 case 35 => 7 case 36 => 15 case 37 => 22 case 38 => 29 case 39 => 36
    case 40 => 43 case 41 => 50 case 42 => 57 case 43 => 58 case 44 => 51 case 45 => 44 case 46 => 37 case 47 => 30
    case 48 => 23 case 49 => 31 case 50 => 38 case 51 => 45 case 52 => 52 case 53 => 59 case 54 => 60 case 55 => 53
    case 56 => 46 case 57 => 39 case 58 => 47 case 59 => 54 case 60 => 61 case 61 => 62 case 62 => 55 case 63 => 63
  }

  /** Where the sequence visits index i. */
  function Visited(i: nat): (j: nat)
    requires i < 64
    ensures j < 64
  {
    match i
    case 0 => 0 case 1 => 2 case 2 => 3 case 3 => 9 case 4 => 10 case 5 => 20 case 6 => 21 case 7 => 35
    case 8 => 1 case 9 => 4 case 10 => 8 case 11 => 11 case 12 => 19 case 13 => 22 case 14 => 34 case 15 => 36
    case 16 => 5 case 17 => 7 case 18 => 12 case 19 => 18 case 20 => 23 case 21 => 33 case 22 => 37 case 23 => 48
    case 24 => 6 case 25 => 13 case 26 => 17 case 27 => 24 case 28 => 32 case 29 => 38 case 30 => 47 case 31 => 49
    case 32 => 14 case 33 => 16 case 34 => 25 case 35 => 31 case 36 => 39 case 37 => 46 case 38 => 50 case 39 => 57
    case 40 => 15 case 41 => 26 case 42 => 30 case 43 => 40 case 44 => 45 case 45 => 51 case 46 => 56 case 47 => 58
    case 48 => 27 case 49 => 29 case 50 => 41 case 51 => 44 case 52 => 52 case 53 => 55 case 54 => 59 case 55 => 62
    case 56 => 28 case 57 => 42 case 58 => 43 case 59 => 53 case 60 => 54 case 61 => 60 case 62 => 61 case 63 => 63
  }

  lemma ZigzagVisits(i: nat)
    requires i < 64
    ensures Zigzag(Visited(i)) == i
  {
  }

  lemma VisitedZigzag(j: nat)
    requires j < 64
    ensures Visited(Zigzag(j)) == j
  {
  }

  function Transposed(c: Cell): nat { 8 * c.col + c.row }

  /** The steps between neighbours of the table, eight entries at a time. */
  ghost predicate Follows(j: nat, c: Cell)
    requires 1 <= j < 64
  {
    c.row < 8 && c.col < 8 && Zigzag(j - 1) == Transposed(c) ==>
      NextCell(c).row < 8 && NextCell(c).col < 8 && Zigzag(j) == Transposed(NextCell(c))
  }

  lemma Follows0(j: nat, c: Cell)
    requires 1 <= j < 8
    ensures Follows(j, c)
  {
  }

  lemma Follows1(j: nat, c: Cell)
    requires 8 <= j < 16
    ensures Follows(j, c)
  {
  }

  lemma Follows2(j: nat, c: Cell)
    requires 16 <= j < 24
    ensures Follows(j, c)
  {
  }

  lemma Follows3(j: nat, c: Cell)
    requires 24 <= j < 32
    ensures Follows(j, c)
  {
  }

  lemma Follows4(j: nat, c: Cell)
    requires 32 <= j < 40
    ensures Follows(j, c)
  {
  }

  lemma Follows5(j: nat, c: Cell)
    requires 40 <= j < 48
    ensures Follows(j, c)
  {
  }

  lemma Follows6(j: nat, c: Cell)
    requires 48 <= j < 56
    ensures Follows(j, c)
  {
  }

  lemma Follows7(j: nat, c: Cell)
    requires 56 <= j < 64
    ensures Follows(j, c)
  {
  }

  lemma AllFollow(j: nat, c: Cell)
    requires 1 <= j < 64
    ensures Follows(j, c)
  {
    hide Follows;
    if j < 8 { Follows0(j, c); } else if j < 16 { Follows1(j, c); } else if j < 24 { Follows2(j, c); }
    else if j < 32 { Follows3(j, c); } else if j < 40 { Follows4(j, c); } else if j < 48 { Follows5(j, c); }
    else if j < 56 { Follows6(j, c); } else { Follows7(j, c); }
  }

  /** The table is that walk, with rows and columns exchanged. */
  lemma {:induction false} ZigzagWalks(j: nat)
    requires j < 64
    ensures Walk(j).row < 8 && Walk(j).col < 8 && Zigzag(j) == Transposed(Walk(j))
  {
    hide NextCell;
    if j > 0 {
      ZigzagWalks(j - 1);
      AllFollow(j, Walk(j - 1));
    }
  }
}
