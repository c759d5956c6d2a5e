// The straight line between two cells (astar/astar.go): Bresenham's steps against the line
// they stand for.

module AstarLine {
  import opened Arith

  function Abs(n: int): nat { if n < 0 then -n else n }

  function Sign(n: int): int { if n < 0 then -1 else 1 }

  function Max(a: nat, b: nat): nat { if a < b then b else a }

  // How far across the line is after k of `major` steps along it: k * minor / major, rounded.
  function Offset(major: nat, minor: nat, k: nat): nat
    requires major > 0
  {
    (2 * (k * minor) + major) / (2 * major)
  }

  // How many steps the line takes.
  function Length(sx: int, sy: int, tx: int, ty: int): nat { Max(Abs(tx - sx), Abs(ty - sy)) }

  // Its k-th cell.
  function LineCell(sx: int, sy: int, tx: int, ty: int, k: nat): (int, int)
    requires (sx, sy) != (tx, ty)
  {
    var dx, dy := Abs(tx - sx), Abs(ty - sy);
    if dy < dx then (sx + Sign(tx - sx) * k, sy + Sign(ty - sy) * Offset(dx, dy, k))
    else (sx + Sign(tx - sx) * Offset(dy, dx, k), sy + Sign(ty - sy) * k)
  }

  // ------------------------------------------------------------ what the line is

  // The offset is the whole number nearest to k * minor / major.
  lemma OffsetIs(major: nat, minor: nat, k: nat, m: int)
    requires major > 0 && 0 <= 2 * (k * minor) - 2 * (m * major) + major < 2 * major
    ensures Offset(major, minor, k) == m
  {
    var a := 2 * (k * minor) + major;
    assert 2 * (m * major) == m * (2 * major);
    DivMod(a, 2 * major, m, a - m * (2 * major));
  }

  lemma OffsetNear(major: nat, minor: nat, k: nat)
    requires major > 0
    ensures 0 <= 2 * (k * minor) - 2 * (Offset(major, minor, k) * major) + major < 2 * major
  {
    var a, m := 2 * (k * minor) + major, Offset(major, minor, k);
    assert a == m * (2 * major) + a % (2 * major);
    assert m * (2 * major) == 2 * (m * major);
  }

  lemma OffsetEnds(major: nat, minor: nat)
    requires major > 0
    ensures Offset(major, minor, 0) == 0 && Offset(major, minor, major) == minor
  {
    OffsetIs(major, minor, 0, 0);
    assert major * minor == minor * major;
    OffsetIs(major, minor, major, minor);
  }

  // One step along the line crosses over by one exactly if the error term says so.
  lemma OffsetNext(major: nat, minor: nat, k: nat, d: int)
    requires major > 0 && minor <= major && d == 2 * ((k + 1) * minor) - major - 2 * (Offset(major, minor, k) * major)
    ensures 2 * minor - 2 * major <= d < 2 * minor
    ensures Offset(major, minor, k + 1) == if d < 0 then Offset(major, minor, k) else Offset(major, minor, k) + 1
  {
    var m := Offset(major, minor, k);
    OffsetNear(major, minor, k);
    assert (k + 1) * minor == k * minor + minor && (m + 1) * major == m * major + major;
    OffsetIs(major, minor, k + 1, if d < 0 then m else m + 1);
  }

  // The line starts and ends where it should.
  lemma LineEnds(sx: int, sy: int, tx: int, ty: int)
    requires (sx, sy) != (tx, ty)
    ensures LineCell(sx, sy, tx, ty, 0) == (sx, sy)
    ensures LineCell(sx, sy, tx, ty, Length(sx, sy, tx, ty)) == (tx, ty)
  {
    var dx, dy := Abs(tx - sx), Abs(ty - sy);
    OffsetEnds(Max(dx, dy), if dy < dx then dy else dx);
  }

  predicate Adjacent(a: (int, int), b: (int, int)) {
    a != b && Abs(a.0 - b.0) <= 1 && Abs(a.1 - b.1) <= 1
  }

  // From cell to cell it goes to one of the eight neighbours.
  lemma LineSteps(sx: int, sy: int, tx: int, ty: int, k: nat)
    requires (sx, sy) != (tx, ty)
    ensures Adjacent(LineCell(sx, sy, tx, ty, k), LineCell(sx, sy, tx, ty, k + 1))
  {
    var dx, dy := Abs(tx - sx), Abs(ty - sy);
    var major, minor := Max(dx, dy), if dy < dx then dy else dx;
    var m := Offset(major, minor, k);
    OffsetNext(major, minor, k, 2 * ((k + 1) * minor) - major - 2 * (m * major));
  }

  // To either side, or to none, it is no further than to this one.
  lemma SignedNear(s: int, m: int, major: int, c: int)
    requires -1 <= s <= 1
    ensures Abs((s * m) * major - s * c) <= Abs(m * major - c)
  {
    if s == -1 {
      assert (0 - m) * major == 0 - m * major;
    } else if s == 0 {
      assert (0 * m) * major == 0;
    }
  }

  // Every cell is within half a cell of the ideal line, measured across its longer side.
  lemma LineIsStraight(sx: int, sy: int, tx: int, ty: int, k: nat)
    requires (sx, sy) != (tx, ty)
    ensures var (x, y) := LineCell(sx, sy, tx, ty, k);
            var dx, dy := tx - sx, ty - sy;
            if Abs(dy) < Abs(dx) then x == sx + Sign(dx) * k &&
              2 * Abs((y - sy) * Abs(dx) - Sign(dy) * (k * Abs(dy))) <= Abs(dx)
            else y == sy + Sign(dy) * k && 2 * Abs((x - sx) * Abs(dy) - Sign(dx) * (k * Abs(dx))) <= Abs(dy)
  {
    var dx, dy := Abs(tx - sx), Abs(ty - sy);
    var major, minor := Max(dx, dy), if dy < dx then dy else dx;
    OffsetNear(major, minor, k);
    var m := Offset(major, minor, k);
    SignedNear(Sign(tx - sx), m, major, k * minor);
    SignedNear(Sign(ty - sy), m, major, k * minor);
  }

  // ------------------------------------------------------------ walking it

  // Every cell of the line but the last is walkable.
  ghost predicate Through(sx: int, sy: int, tx: int, ty: int, walkAble: (int, int) -> bool)
    requires (sx, sy) != (tx, ty)
  {
    forall k :: 0 <= k < Length(sx, sy, tx, ty) ==>
      var c := LineCell(sx, sy, tx, ty, k); walkAble(c.0, c.1)
  }

  // The count that walkAbleBorder keeps along the line.
  function BorderCount(sx: int, sy: int, tx: int, ty: int, border: (int, int, int) -> int, k: nat): int
    requires (sx, sy) != (tx, ty)
  {
    if k == 0 then 0
    else
      var c := LineCell(sx, sy, tx, ty, k - 1);
      border(c.0, c.1, BorderCount(sx, sy, tx, ty, border, k - 1))
  }

  ghost predicate ThroughBorder(sx: int, sy: int, tx: int, ty: int, border: (int, int, int) -> int)
    requires (sx, sy) != (tx, ty)
  {
    forall k :: 0 < k <= Length(sx, sy, tx, ty) ==> BorderCount(sx, sy, tx, ty, border, k) <= 3
  }

  method IsThrough(sx: int, sy: int, tx: int, ty: int, walkAble: (int, int) -> bool) returns (r: bool)
    requires (sx, sy) != (tx, ty)
    ensures r <==> Through(sx, sy, tx, ty, walkAble)
  {
    var dx, stepX := tx - sx, -1;
    if dx < 0 { dx := -dx; } else { stepX := 1; }
    var dy, stepY := ty - sy, -1;
    if dy < 0 { dy := -dy; } else { stepY := 1; }
    LineEnds(sx, sy, tx, ty);
    if dy < dx {
      r := AlongX(sx, sy, tx, ty, dx, dy, stepX, stepY, walkAble);
    } else {
      r := AlongY(sx, sy, tx, ty, dx, dy, stepX, stepY, walkAble);
    }
  }

  method AlongX(sx: int, sy: int, tx: int, ty: int, dx: nat, dy: nat, stepX: int, stepY: int,
                walkAble: (int, int) -> bool)
    returns (r: bool)
    requires dx == Abs(tx - sx) && dy == Abs(ty - sy) && dy < dx && stepX == Sign(tx - sx) && stepY == Sign(ty - sy)
    ensures r <==> Through(sx, sy, tx, ty, walkAble)
  {
    var x, y, d := sx, sy, 2 * dy - dx;
    ghost var k: nat := 0;
    OffsetEnds(dx, dy);
    while true
      invariant k < dx && (x, y) == LineCell(sx, sy, tx, ty, k)
      invariant d == 2 * ((k + 1) * dy) - dx - 2 * (Offset(dx, dy, k) * dx)
      invariant forall j :: 0 <= j < k ==> var c := LineCell(sx, sy, tx, ty, j); walkAble(c.0, c.1)
      decreases dx - k
    {
      if !walkAble(x, y) {
        return false;
      }
      OffsetNext(dx, dy, k, d);
      NextError(dx, dy, k, d);
      if d < 0 {
        d := d + 2 * dy;
      } else {
        y := y + stepY;
        d := d + 2 * (dy - dx);
      }
      x, k := x + stepX, k + 1;
      if x == tx {
        break;
      }
    }
    return true;
  }

  // How the error term goes on.
  lemma NextError(major: nat, minor: nat, k: nat, d: int)
    requires major > 0 && minor <= major && d == 2 * ((k + 1) * minor) - major - 2 * (Offset(major, minor, k) * major)
    ensures (if d < 0 then d + 2 * minor else d + 2 * (minor - major))
         == 2 * ((k + 2) * minor) - major - 2 * (Offset(major, minor, k + 1) * major)
  {
    OffsetNext(major, minor, k, d);
    OnceMore(k + 1, minor);
    OnceMore(Offset(major, minor, k), major);
  }

  method AlongY(sx: int, sy: int, tx: int, ty: int, dx: nat, dy: nat, stepX: int, stepY: int,
                walkAble: (int, int) -> bool)
    returns (r: bool)
    requires dx == Abs(tx - sx) && dy == Abs(ty - sy) && dx <= dy && dy > 0 && stepX == Sign(tx - sx) &&
             stepY == Sign(ty - sy)
    ensures r <==> Through(sx, sy, tx, ty, walkAble)
  {
    var x, y, d := sx, sy, 2 * dx - dy;
    ghost var k: nat := 0;
    OffsetEnds(dy, dx);
    while true
      invariant k < dy && (x, y) == LineCell(sx, sy, tx, ty, k)
      invariant d == 2 * ((k + 1) * dx) - dy - 2 * (Offset(dy, dx, k) * dy)
      invariant forall j :: 0 <= j < k ==> var c := LineCell(sx, sy, tx, ty, j); walkAble(c.0, c.1)
      decreases dy - k
    {
      if !walkAble(x, y) {
        return false;
      }
      OffsetNext(dy, dx, k, d);
      NextError(dy, dx, k, d);
      if d < 0 {
        d := d + 2 * dx;
      } else {
        x := x + stepX;
        d := d + 2 * (dx - dy);
      }
      y, k := y + stepY, k + 1;
      if y == ty {
        break;
      }
    }
    return true;
  }

  method IsThroughBorder(sx: int, sy: int, tx: int, ty: int, border: (int, int, int) -> int) returns (r: bool)
    requires (sx, sy) != (tx, ty)
    ensures r <==> ThroughBorder(sx, sy, tx, ty, border)
  {
    var dx, stepX := tx - sx, -1;
    if dx < 0 { dx := -dx; } else { stepX := 1; }
    var dy, stepY := ty - sy, -1;
    if dy < 0 { dy := -dy; } else { stepY := 1; }
    LineEnds(sx, sy, tx, ty);
    if dy < dx {
      r := AlongXBorder(sx, sy, tx, ty, dx, dy, stepX, stepY, border);
    } else {
      r := AlongYBorder(sx, sy, tx, ty, dx, dy, stepX, stepY, border);
    }
  }

  method AlongXBorder(sx: int, sy: int, tx: int, ty: int, dx: nat, dy: nat, stepX: int, stepY: int,
                      border: (int, int, int) -> int)
    returns (r: bool)
    requires dx == Abs(tx - sx) && dy == Abs(ty - sy) && dy < dx && stepX == Sign(tx - sx) && stepY == Sign(ty - sy)
    ensures r <==> ThroughBorder(sx, sy, tx, ty, border)
  {
    var x, y, d := sx, sy, 2 * dy - dx;
    ghost var k: nat := 0;
    var c := 0;
    OffsetEnds(dx, dy);
    while true
      invariant k < dx && (x, y) == LineCell(sx, sy, tx, ty, k)
      invariant d == 2 * ((k + 1) * dy) - dx - 2 * (Offset(dx, dy, k) * dx)
      invariant c == BorderCount(sx, sy, tx, ty, border, k)
      invariant forall j :: 0 < j <= k ==> BorderCount(sx, sy, tx, ty, border, j) <= 3
      decreases dx - k
    {
      c := border(x, y, c);
      if c > 3 {
        assert c == BorderCount(sx, sy, tx, ty, border, k + 1);
        return false;
      }
      OffsetNext(dx, dy, k, d);
      NextError(dx, dy, k, d);
      if d < 0 {
        d := d + 2 * dy;
      } else {
        y := y + stepY;
        d := d + 2 * (dy - dx);
      }
      x, k := x + stepX, k + 1;
      if x == tx {
        break;
      }
    }
    return true;
  }

  method AlongYBorder(sx: int, sy: int, tx: int, ty: int, dx: nat, dy: nat, stepX: int, stepY: int,
                      border: (int, int, int) -> int)
    returns (r: bool)
    requires dx == Abs(tx - sx) && dy == Abs(ty - sy) && dx <= dy && dy > 0 && stepX == Sign(tx - sx) &&
             stepY == Sign(ty - sy)
    ensures r <==> ThroughBorder(sx, sy, tx, ty, border)
  {
    var x, y, d := sx, sy, 2 * dx - dy;
    ghost var k: nat := 0;
    var c := 0;
    OffsetEnds(dy, dx);
    while true
      invariant k < dy && (x, y) == LineCell(sx, sy, tx, ty, k)
      invariant d == 2 * ((k + 1) * dx) - dy - 2 * (Offset(dy, dx, k) * dy)
      invariant c == BorderCount(sx, sy, tx, ty, border, k)
      invariant forall j :: 0 < j <= k ==> BorderCount(sx, sy, tx, ty, border, j) <= 3
      decreases dy - k
    {
      c := border(x, y, c);
      if c > 3 {
        assert c == BorderCount(sx, sy, tx, ty, border, k + 1);
        return false;
      }
      OffsetNext(dy, dx, k, d);
      NextError(dy, dx, k, d);
      if d < 0 {
        d := d + 2 * dx;
      } else {
        x := x + stepX;
        d := d + 2 * (dx - dy);
      }
      y, k := y + stepY, k + 1;
      if y == ty {
        break;
      }
    }
    return true;
  }
}
