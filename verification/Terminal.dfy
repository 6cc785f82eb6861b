// The cursor of the text terminal: moving it is an action of the integers on the screen.
module Terminal {

  const FONT_WIDTH := 8
  const FONT_HEIGHT := 16

  // C's division and remainder, which round towards zero.

  function CDiv(a: int, b: int): int
    requires b > 0
  {
    if a >= 0 then a / b else -((-a) / b)
  }

  function CMod(a: int, b: int): int
    requires b > 0
  {
    a - b * CDiv(a, b)
  }

  function FloorDiv(a: int, b: int): int
    requires b > 0
  {
    if CMod(a, b) < 0 then CDiv(a, b) - 1 else CDiv(a, b)
  }

  function FloorMod(a: int, b: int): int
    requires b > 0
  {
    if CMod(a, b) < 0 then CMod(a, b) + b else CMod(a, b)
  }

  lemma DivModIs(a: int, b: int)
    requires b > 0
    ensures a == b * (a / b) + a % b && 0 <= a % b < b
  {
  }

  /** Quotient and remainder are the only ones that fit. */
  lemma DivModUnique(a: int, b: int, q: int, r: int)
    requires b > 0 && a == b * q + r && 0 <= r < b
    ensures a / b == q && a % b == r
  {
    DivModIs(a, b);
    var k := q - a / b;
    assert b * k == b * q - b * (a / b);
    MulBetween(b, k);
  }

  lemma MulBetween(b: int, k: int)
    requires b > 0 && -b < b * k < b
    ensures k == 0
  {
    if k >= 1 {
      MulAtLeast(b, k);
    } else if k <= -1 {
      MulAtLeast(b, -k);
    }
  }

  lemma MulAtLeast(b: int, k: int)
    requires b > 0 && k >= 1
    ensures b * k >= b
  {
  }

  /** floor_div and floor_mod round down, whatever the sign. */
  lemma FloorsAreFloors(a: int, b: int)
    requires b > 0
    ensures FloorDiv(a, b) == a / b && FloorMod(a, b) == a % b
  {
    if a < 0 {
      var q, r := (-a) / b, (-a) % b;
      DivModIs(-a, b);
      assert a == b * (-q) - r;
      if r == 0 {
        DivModUnique(a, b, -q, 0);
      } else {
        assert b * (-q - 1) == b * (-q) - b;
        DivModUnique(a, b, -q - 1, b - r);
      }
    }
  }

  /** Dividing a remainder plus something carries over into the quotient. */
  lemma Carries(a: int, k: int, b: int)
    requires b > 0
    ensures (a % b + k) / b + a / b == (a + k) / b
    ensures (a % b + k) % b == (a + k) % b
  {
    DivModIs(a, b);
    DivModIs(a % b + k, b);
    var q, s := a / b, (a % b + k) / b;
    assert b * (q + s) == b * q + b * s;
    DivModUnique(a + k, b, q + s, (a % b + k) % b);
  }

  // ---------------------------------------------------------------------------
  // The cursor

  datatype Cursor = Cursor(x: int, y: int)
  datatype Screen = Screen(width: int, height: int)

  predicate InRange(c: Cursor, s: Screen) { 0 <= c.x < s.width && 0 <= c.y < s.height }

  predicate Positive(s: Screen) { s.width > 0 && s.height > 0 }

  /** terminal_move_cursor, by rows and columns of characters. */
  function Move(c: Cursor, s: Screen, rows: int, columns: int): Cursor
    requires Positive(s)
  {
    var x := c.x + columns * FONT_WIDTH;
    var y := c.y + (rows + FloorDiv(x, s.width)) * FONT_HEIGHT;
    Cursor(FloorMod(x, s.width), FloorMod(y, s.height))
  }

  lemma MoveIs(c: Cursor, s: Screen, rows: int, columns: int)
    requires Positive(s)
    ensures var x := c.x + 8 * columns;
            Move(c, s, rows, columns) == Cursor(x % s.width, (c.y + 16 * (rows + x / s.width)) % s.height)
    ensures InRange(Move(c, s, rows, columns), s)
  {
    var x := c.x + columns * FONT_WIDTH;
    FloorsAreFloors(x, s.width);
    FloorsAreFloors(c.y + (rows + FloorDiv(x, s.width)) * FONT_HEIGHT, s.height);
  }

  lemma FloorsCarry(a: int, k: int, b: int)
    requires b > 0
    ensures FloorDiv(FloorMod(a, b) + k, b) + FloorDiv(a, b) == FloorDiv(a + k, b)
    ensures FloorMod(FloorMod(a, b) + k, b) == FloorMod(a + k, b)
  {
    FloorsAreFloors(a, b);
    FloorsAreFloors(a + k, b);
    FloorsAreFloors(a % b + k, b);
    Carries(a, k, b);
    hide FloorDiv, FloorMod;
  }

  /** Moving twice is moving by the sums, also across the edges of the screen. */
  lemma MovesAdd(c: Cursor, s: Screen, a: int, b: int, rows: int, columns: int)
    requires Positive(s)
    ensures Move(Move(c, s, a, b), s, rows, columns) == Move(c, s, a + rows, b + columns)
  {
    hide FloorDiv, FloorMod;
    var x := c.x + b * FONT_WIDTH;
    FloorsCarry(x, columns * FONT_WIDTH, s.width);
    var y := c.y + (a + FloorDiv(x, s.width)) * FONT_HEIGHT;
    var k := (rows + FloorDiv(FloorMod(x, s.width) + columns * FONT_WIDTH, s.width)) * FONT_HEIGHT;
    FloorsCarry(y, k, s.height);
    assert x + columns * FONT_WIDTH == c.x + (b + columns) * FONT_WIDTH;
    assert y + k == c.y + (a + rows + FloorDiv(x + columns * FONT_WIDTH, s.width)) * FONT_HEIGHT;
  }

  /** On the screen, moving nowhere does nothing, and opposite moves undo each other. */
  lemma MovesUndo(c: Cursor, s: Screen, rows: int, columns: int)
    requires Positive(s) && InRange(c, s)
    ensures Move(c, s, 0, 0) == c
    ensures Move(Move(c, s, rows, columns), s, -rows, -columns) == c
  {
    MoveIs(c, s, 0, 0);
    MovesAdd(c, s, rows, columns, -rows, -columns);
    DivModUnique(c.x, s.width, 0, c.x);
    DivModUnique(c.y, s.height, 0, c.y);
    hide Move;
  }

  /** terminal_set_position, whose test lets a cursor just past the edge through. */
  function SetPosition(c: Cursor, s: Screen, y: nat, x: nat): Cursor {
    if x > s.width || y > s.height then c else Cursor(x, y)
  }

  /** A position is taken up as given or, beyond an edge, not at all. */
  lemma SetPositionIs(c: Cursor, s: Screen, y: nat, x: nat)
    ensures var d := SetPosition(c, s, y, x);
            && (x <= s.width && y <= s.height ==> d.x == x && d.y == y)
            && (x > s.width || y > s.height ==> d == c)
  {
  }

  lemma SetPositionKeepsIff(c: Cursor, s: Screen, y: nat, x: nat)
    requires Positive(s) && InRange(c, s)
    ensures InRange(SetPosition(c, s, y, x), s) <==> (x < s.width && y < s.height) || x > s.width || y > s.height
  {
  }

  /** On any screen, the position one past the right edge is accepted. */
  lemma SetPositionCanLeave(s: Screen)
    requires Positive(s)
    ensures InRange(Cursor(0, 0), s) && !InRange(SetPosition(Cursor(0, 0), s, 0, s.width), s)
  {
  }

  // ---------------------------------------------------------------------------
  // Writing text

  /** ((col + 4) & ~3) - col */
  function TabStop(column: nat): int { column + 4 - (column + 4) % 4 - column }

  /** The next column divisible by four. */
  lemma TabStopIs(column: nat)
    ensures 1 <= TabStop(column) <= 4 && (column + TabStop(column)) % 4 == 0
  {
  }

  const BACKSPACE := '\U{8}'

  /** The effect of terminal_putchar on the cursor. */
  function PutChar(c: Cursor, s: Screen, ch: char): Cursor
    requires Positive(s) && c.x >= 0
  {
    if ch == '\n' then Move(Cursor(0, c.y), s, 1, 0)
    else if ch == '\r' then Cursor(0, c.y)
    else if ch == '\t' then Move(c, s, 0, TabStop(c.x / FONT_WIDTH))
    else if ch == BACKSPACE then Move(c, s, 0, -1)
    else Move(c, s, 0, 1)
  }

  lemma PutCharInRange(c: Cursor, s: Screen, ch: char)
    requires Positive(s) && InRange(c, s)
    ensures InRange(PutChar(c, s, ch), s)
  {
    MoveIs(c, s, 0, 1);
    MoveIs(c, s, 0, -1);
    MoveIs(Cursor(0, c.y), s, 1, 0);
    MoveIs(c, s, 0, TabStop(c.x / FONT_WIDTH));
    hide Move, TabStop;
  }

  /** A newline leads to the start of the next row of text, from the last one to the top; a
      carriage return leads to the start of the row. */
  lemma LineEnds(c: Cursor, s: Screen)
    requires Positive(s) && InRange(c, s)
    ensures PutChar(c, s, '\n') == Cursor(0, (c.y + 16) % s.height)
    ensures PutChar(c, s, '\r') == Cursor(0, c.y)
  {
    MoveIs(Cursor(0, c.y), s, 1, 0);
    DivModUnique(0, s.width, 0, 0);
    hide Move;
  }

  /** A printable character leads to the next column, past the end of the row into the next
      one, from the last one to the top. */
  lemma PrintableSteps(c: Cursor, s: Screen, ch: char)
    requires Positive(s) && InRange(c, s) && ch != '\n' && ch != '\r' && ch != '\t' && ch != '\U{8}'
    ensures PutChar(c, s, ch) == Cursor((c.x + 8) % s.width, (c.y + 16 * ((c.x + 8) / s.width)) % s.height)
  {
    MoveIs(c, s, 0, 1);
    hide Move;
  }

  /** terminal_write */
  function Write(c: Cursor, s: Screen, text: string): Cursor
    requires Positive(s) && InRange(c, s)
    decreases |text|
  {
    if text == "" then c
    else
      PutCharInRange(c, s, text[0]);
      Write(PutChar(c, s, text[0]), s, text[1..])
  }

  /** Writing printable characters is moving by their number. */
  lemma {:induction false} WritePrintable(c: Cursor, s: Screen, text: string)
    requires Positive(s) && InRange(c, s)
    requires forall ch :: ch in text ==> ch != '\n' && ch != '\r' && ch != '\t' && ch != '\U{8}'
    ensures Write(c, s, text) == Move(c, s, 0, |text|)
    decreases |text|
  {
    hide Move, TabStop;
    if text == "" {
      MovesUndo(c, s, 0, 0);
    } else {
      assert text[0] in text;
      assert PutChar(c, s, text[0]) == Move(c, s, 0, 1);
      forall ch | ch in text[1..] ensures ch != '\n' && ch != '\r' && ch != '\t' && ch != '\U{8}' {
        assert ch in text;
      }
      PutCharInRange(c, s, text[0]);
      WritePrintable(PutChar(c, s, text[0]), s, text[1..]);
      MovesAdd(c, s, 0, 1, 0, |text| - 1);
    }
  }

  /** One text after the other is both as one. */
  lemma {:induction false} WritesAppend(c: Cursor, s: Screen, a: string, b: string)
    requires Positive(s) && InRange(c, s)
    ensures InRange(Write(c, s, a), s) && Write(Write(c, s, a), s, b) == Write(c, s, a + b)
    ensures Write(c, s, "") == c && (|a| == 1 ==> Write(c, s, a) == PutChar(c, s, a[0]))
    decreases |a|
  {
    if a == "" {
      assert a + b == b;
    } else {
      PutCharInRange(c, s, a[0]);
      assert (a + b)[1..] == a[1..] + b;
      WritesAppend(PutChar(c, s, a[0]), s, a[1..], b);
    }
  }

  /** A backspace takes the cursor back over the last printable character, also over the edge. */
  lemma BackspaceUndoes(c: Cursor, s: Screen, ch: char)
    requires Positive(s) && InRange(c, s) && ch != '\n' && ch != '\r' && ch != '\t' && ch != '\U{8}'
    ensures InRange(PutChar(c, s, ch), s) && PutChar(PutChar(c, s, ch), s, '\U{8}') == c
  {
    PutCharInRange(c, s, ch);
    MovesUndo(c, s, 0, 1);
  }

  /** A tab that stays in its row ends in a column divisible by four, at most four further on. */
  lemma TabStops(c: Cursor, s: Screen)
    requires Positive(s) && InRange(c, s)
    requires var x := c.x + FONT_WIDTH * TabStop(c.x / FONT_WIDTH); x < s.width
    ensures var d := PutChar(c, s, '\t');
            && d.y == c.y && d.x / FONT_WIDTH % 4 == 0 && c.x < d.x <= c.x + 4 * FONT_WIDTH && d.x % FONT_WIDTH == c.x % FONT_WIDTH
  {
    var k := TabStop(c.x / FONT_WIDTH);
    MoveIs(c, s, 0, k);
    DivModUnique(c.x + 8 * k, s.width, 0, c.x + 8 * k);
    DivModUnique(c.y, s.height, 0, c.y);
    hide Move;
  }

  // ---------------------------------------------------------------------------
  // The terminal

  class Terminal {
    var cursorX: int
    var cursorY: int
    const screen: Screen

    ghost predicate Valid()
      reads this
    {
      Positive(screen) && InRange(Where(), screen)
    }

    ghost function Where(): Cursor
      reads this
    {
      Cursor(cursorX, cursorY)
    }

    /** terminal_init */
    constructor (screen: Screen)
      requires Positive(screen)
      ensures Valid() && Where() == Cursor(0, 0) && this.screen == screen
    {
      cursorX, cursorY := 0, 0;
      this.screen := screen;
    }

    method MoveCursor(y: int, x: int)
      requires Positive(screen)
      modifies this
      ensures Valid() && Where() == Move(old(Where()), screen, y, x)
    {
      MoveIs(Where(), screen, y, x);
      var newX := cursorX + x * FONT_WIDTH;
      var rows := y + FloorDiv(newX, screen.width);
      cursorX := FloorMod(newX, screen.width);
      var newY := cursorY + rows * FONT_HEIGHT;
      cursorY := FloorMod(newY, screen.height);
    }

    method SetCursor(y: nat, x: nat)
      modifies this
      ensures Where() == SetPosition(old(Where()), screen, y, x)
    {
      if x > screen.width || y > screen.height {
        return;
      }
      cursorX, cursorY := x, y;
    }

    method Put(ch: char)
      requires Valid()
      modifies this
      ensures Valid() && Where() == PutChar(old(Where()), screen, ch)
    {
      if ch == '\n' {
        cursorX := 0;
        MoveCursor(1, 0);
      } else if ch == '\r' {
        cursorX := 0;
      } else if ch == '\t' {
        var col := cursorX / FONT_WIDTH;
        MoveCursor(0, TabStop(col));
      } else if ch == BACKSPACE {
        MoveCursor(0, -1);
      } else {
        MoveCursor(0, 1);
      }
    }

    method WriteText(text: string)
      requires Valid()
      modifies this
      ensures Valid() && Where() == Write(old(Where()), screen, text)
    {
      for i := 0 to |text|
        invariant Valid() && Write(Where(), screen, text[i..]) == Write(old(Where()), screen, text)
      {
        assert text[i..][0] == text[i] && text[i..][1..] == text[i + 1..];
        Put(text[i]);
      }
    }
  }
}
