/** The VGA text-mode console: a 160 x 25 byte buffer (80 x 25 cells, each a
    character byte followed by a colour byte) written under a byte offset
    cursor, with newline, backspace and scrolling. */
module VgaText {

  /** Bytes per row and rows. */
  const WIDTH: nat := 160
  const HEIGHT: nat := 25
  const BUFFER_SIZE: nat := 4000

  /** The last offset at which the cursor may stand: WIDTH * HEIGHT - 2. */
  const LAST_CELL: nat := 3998

  /** WIDTH * (HEIGHT - 1): the start of the last row. */
  const LAST_ROW: nat := 3840

  const SPACE: bv8 := 0x20
  const NEWLINE: bv8 := 0x0A
  const BACKSPACE: bv8 := 0x08

  /** Palette indices of white and black in the standard VGA palette. */
  const WHITE: bv8 := 15
  const BLACK: bv8 := 0

  /** `ColorCode::new`: the background in the high nibble and the
      foreground in the low nibble. */
  function ColorCode(foreground: bv8, background: bv8): (code: bv8)
    ensures foreground < 16 ==> code & 0xF == foreground && code >> 4 == background & 0xF
  {
    (background << 4) | foreground
  }

  /** Both colours can be read back from a colour code. */
  lemma ColorCodeNibbles(foreground: bv8, background: bv8)
    requires foreground < 16 && background < 16
    ensures ColorCode(foreground, background) & 0xF == foreground
    ensures ColorCode(foreground, background) >> 4 == background
    ensures ColorCode(foreground, background) as int == 16 * background as int + foreground as int
  {
  }

  /** `calc_offset`: the byte at column x of row y. */
  function CalcOffset(x: nat, y: nat): (o: nat)
    ensures x < WIDTH ==> o / WIDTH == y && o % WIDTH == x
  {
    y * WIDTH + x
  }

  /** The cursor stands on the character byte of a cell. */
  predicate ValidOffset(o: nat)
  {
    o % 2 == 0 && o <= LAST_CELL
  }

  /** The byte at position i of a blank screen in colour color. */
  function BlankByte(i: nat, color: bv8): bv8
  {
    if i % 2 == 0 then SPACE else color
  }

  /** A blank row. */
  function BlankRow(color: bv8): (row: seq<bv8>)
    ensures |row| == WIDTH && forall i :: 0 <= i < WIDTH ==> row[i] == BlankByte(i, color)
  {
    seq(WIDTH, i requires 0 <= i < WIDTH => BlankByte(i, color))
  }

  /** A blank screen. */
  function Blank(color: bv8): (cells: seq<bv8>)
    ensures |cells| == BUFFER_SIZE && forall i :: 0 <= i < BUFFER_SIZE ==> cells[i] == BlankByte(i, color)
  {
    seq(BUFFER_SIZE, i requires 0 <= i < BUFFER_SIZE => BlankByte(i, color))
  }

  /** The screen scrolled up one row: every row takes the contents of the
      row below it and the last row is blank. */
  function Scrolled(cells: seq<bv8>, color: bv8): (r: seq<bv8>)
    requires |cells| == BUFFER_SIZE
    ensures |r| == BUFFER_SIZE
    ensures forall i :: 0 <= i < LAST_ROW ==> r[i] == cells[i + WIDTH]
    ensures forall i :: LAST_ROW <= i < BUFFER_SIZE ==> r[i] == BlankByte(i - LAST_ROW, color)
  {
    cells[WIDTH..] + BlankRow(color)
  }

  /** The character ch in colour color at the cell of offset o. */
  function Put(cells: seq<bv8>, o: nat, ch: bv8, color: bv8): seq<bv8>
    requires o + 1 < |cells|
  {
    cells[o := ch][o + 1 := color]
  }

  /** The buffer contents and the cursor. */
  datatype Screen = Screen(cells: seq<bv8>, offset: nat)

  /** The step that ends every write: move one cell on, or scroll when the
      cursor is on the last cell. */
  function Advance(cells: seq<bv8>, o: nat, color: bv8): (s: Screen)
    requires |cells| == BUFFER_SIZE
    ensures |s.cells| == BUFFER_SIZE
    ensures o % 2 == 0 ==> ValidOffset(s.offset)
    ensures o < LAST_CELL ==> s.cells == cells && s.offset == o + 2
    ensures o >= LAST_CELL ==>
              s.offset == LAST_ROW && s.cells[..LAST_ROW] == cells[WIDTH..] && s.cells[LAST_ROW..] == BlankRow(color)
  {
    if o < LAST_CELL then Screen(cells, o + 2) else Screen(Scrolled(cells, color), LAST_ROW)
  }

  /** `write_one` refuses a backspace, by an unsigned underflow, when fewer
      than two cells precede the cursor: it first steps back one cell and
      writes a blank, which steps forward again, and then steps back two. */
  predicate Underflows(o: nat, val: bv8)
  {
    val == BACKSPACE && o < 4
  }

  /** A backspace has nothing to erase only at the top left cell. */
  predicate NothingToErase(o: nat, val: bv8)
  {
    val == BACKSPACE && o < 2
  }

  /** The screen after `write_one(val)` in colour color: a newline moves to
      the last cell of the row, a backspace clears the cell before the
      cursor and moves onto it, and any other byte is stored with the
      colour; all but backspace then advance. */
  function Written(s: Screen, color: bv8, val: bv8): (r: Screen)
    requires |s.cells| == BUFFER_SIZE && ValidOffset(s.offset) && !NothingToErase(s.offset, val)
    ensures |r.cells| == BUFFER_SIZE && ValidOffset(r.offset)
  {
    if val == NEWLINE then Advance(s.cells, s.offset + WIDTH - s.offset % WIDTH - 2, color)
    else if val == BACKSPACE then Screen(Put(s.cells, s.offset - 2, SPACE, color), s.offset - 2)
    else Advance(Put(s.cells, s.offset, val, color), s.offset, color)
  }

  /** A newline leaves the buffer alone and moves the cursor to the start
      of the next row, or scrolls when it is on the last row. */
  lemma NewlineEffect(s: Screen, color: bv8)
    requires |s.cells| == BUFFER_SIZE && ValidOffset(s.offset)
    ensures s.offset / WIDTH < HEIGHT - 1 ==>
              Written(s, color, NEWLINE) == Screen(s.cells, (s.offset / WIDTH + 1) * WIDTH)
    ensures s.offset / WIDTH == HEIGHT - 1 ==>
              Written(s, color, NEWLINE) == Screen(Scrolled(s.cells, color), LAST_ROW)
  {
    var row := s.offset / WIDTH;
    assert s.offset == row * WIDTH + s.offset % WIDTH;
    assert s.offset % WIDTH <= WIDTH - 2;
  }

  /** An ordinary byte lands at the cursor with the current colour. */
  lemma CharEffect(s: Screen, color: bv8, val: bv8)
    requires |s.cells| == BUFFER_SIZE && ValidOffset(s.offset) && val != NEWLINE && val != BACKSPACE
    ensures s.offset < LAST_CELL ==>
              Written(s, color, val).offset == s.offset + 2
              && Written(s, color, val).cells[s.offset] == val
              && Written(s, color, val).cells[s.offset + 1] == color
    ensures s.offset == LAST_CELL ==>
              Written(s, color, val).offset == LAST_ROW
              && Written(s, color, val).cells[LAST_ROW - 2] == val
              && Written(s, color, val).cells[LAST_ROW - 1] == color
  {
  }

  /** A backspace right after an ordinary byte erases it and puts the
      cursor back where it was. */
  lemma BackspaceErases(s: Screen, color: bv8, val: bv8)
    requires |s.cells| == BUFFER_SIZE && ValidOffset(s.offset) && s.offset < LAST_CELL
    requires val != NEWLINE && val != BACKSPACE
    ensures !NothingToErase(Written(s, color, val).offset, BACKSPACE)
    ensures Written(Written(s, color, val), color, BACKSPACE) == Screen(Put(s.cells, s.offset, SPACE, color), s.offset)
  {
    assert Put(Put(s.cells, s.offset, val, color), s.offset, SPACE, color) == Put(s.cells, s.offset, SPACE, color);
  }

  /** With one character on the screen, `write_one` refuses the backspace
      that would erase it, although there is a cell to erase. */
  lemma FirstCellBackspace(cells: seq<bv8>, color: bv8)
    requires |cells| == BUFFER_SIZE
    ensures Underflows(2, BACKSPACE) && !NothingToErase(2, BACKSPACE)
    ensures Written(Screen(cells, 2), color, BACKSPACE) == Screen(Put(cells, 0, SPACE, color), 0)
  {
  }

  /** `VgaTextMode`: the console over the text buffer. */
  class VgaTextMode {
    const buffer: array<bv8>
    var offset: nat
    var color: bv8

    predicate Valid()
      reads this
    {
      buffer.Length == BUFFER_SIZE && ValidOffset(offset)
    }

    /** `new`: cursor at the top left, white on black, over the given
        buffer (the memory at 0xB8000). */
    constructor (buffer: array<bv8>)
      requires buffer.Length == BUFFER_SIZE
      ensures Valid() && this.buffer == buffer && offset == 0 && color == ColorCode(WHITE, BLACK)
    {
      this.buffer := buffer;
      offset := 0;
      color := ColorCode(WHITE, BLACK);
    }

    /** `set_color`: only the colour changes. */
    method SetColor(foreground: bv8, background: bv8)
      modifies this
      ensures color == ColorCode(foreground, background) && offset == old(offset)
    {
      color := ColorCode(foreground, background);
    }

    /** `clear_screen`: blank every cell in the current colour and put the
        cursor at the top left. */
    method ClearScreen()
      requires buffer.Length == BUFFER_SIZE
      modifies this, buffer
      ensures Valid() && offset == 0 && color == old(color)
      ensures buffer[..] == Blank(color)
    {
      offset := 0;
      for k := 0 to BUFFER_SIZE / 2
        invariant offset == 2 * k
        invariant color == old(color)
        invariant forall i :: 0 <= i < offset ==> buffer[i] == BlankByte(i, color)
      {
        buffer[offset] := SPACE;
        buffer[offset + 1] := color;
        offset := offset + 2;
      }
      assert forall i :: 0 <= i < BUFFER_SIZE ==> buffer[..][i] == Blank(color)[i];
      offset := 0;
    }

    /** `init_device`: white on black, then a clear screen. */
    method InitDevice()
      requires buffer.Length == BUFFER_SIZE
      modifies this, buffer
      ensures Valid() && color == ColorCode(WHITE, BLACK)
      ensures buffer[..] == Blank(color) && offset == 0
    {
      SetColor(WHITE, BLACK);
      ClearScreen();
    }

    /** The scroll of `write_one`: rows 1 .. HEIGHT - 1 move up one row, one
        byte at a time, then the last row is blanked. */
    method Scroll()
      requires buffer.Length == BUFFER_SIZE
      modifies buffer
      ensures buffer[..] == Scrolled(old(buffer[..]), color)
    {
      ShiftRows();
      BlankLastRow();
      assert buffer[..] == Scrolled(old(buffer[..]), color);
    }

    /** The row copy of the scroll: each cell of rows 1 .. HEIGHT - 1 to the
        same column of the row above. */
    method ShiftRows()
      requires buffer.Length == BUFFER_SIZE
      modifies buffer
      ensures forall i :: 0 <= i < LAST_ROW ==> buffer[i] == old(buffer[i + WIDTH])
      ensures forall i :: LAST_ROW <= i < BUFFER_SIZE ==> buffer[i] == old(buffer[i])
    {
      for y := 1 to HEIGHT
        invariant forall i :: 0 <= i < (y - 1) * WIDTH ==> buffer[i] == old(buffer[i + WIDTH])
        invariant forall i :: (y - 1) * WIDTH <= i < BUFFER_SIZE ==> buffer[i] == old(buffer[i])
      {
        CopyRowUp(y);
      }
    }

    /** One pass of the outer scroll loop: row y copied over row y - 1,
        one cell at a time. */
    method CopyRowUp(y: nat)
      requires buffer.Length == BUFFER_SIZE && 1 <= y < HEIGHT
      modifies buffer
      ensures forall i :: (y - 1) * WIDTH <= i < y * WIDTH ==> buffer[i] == old(buffer[i + WIDTH])
      ensures forall i :: 0 <= i < BUFFER_SIZE && !((y - 1) * WIDTH <= i < y * WIDTH) ==> buffer[i] == old(buffer[i])
    {
      for x := 0 to WIDTH
        invariant forall i :: (y - 1) * WIDTH <= i < (y - 1) * WIDTH + x ==> buffer[i] == old(buffer[i + WIDTH])
        invariant forall i :: 0 <= i < BUFFER_SIZE && !((y - 1) * WIDTH <= i < (y - 1) * WIDTH + x) ==> buffer[i] == old(buffer[i])
      {
        buffer[CalcOffset(x, y - 1)] := buffer[CalcOffset(x, y)];
      }
    }

    /** The last step of the scroll: the last row becomes blank in the
        current colour, and nothing above it changes. */
    method BlankLastRow()
      requires buffer.Length == BUFFER_SIZE
      modifies buffer
      ensures forall i :: 0 <= i < LAST_ROW ==> buffer[i] == old(buffer[i])
      ensures forall i :: LAST_ROW <= i < BUFFER_SIZE ==> buffer[i] == BlankByte(i - LAST_ROW, color)
    {
      for x := 0 to WIDTH / 2
        invariant forall i :: 0 <= i < LAST_ROW ==> buffer[i] == old(buffer[i])
        invariant forall i :: LAST_ROW <= i < LAST_ROW + 2 * x ==> buffer[i] == BlankByte(i - LAST_ROW, color)
      {
        buffer[CalcOffset(x * 2, HEIGHT - 1)] := SPACE;
        buffer[CalcOffset(x * 2 + 1, HEIGHT - 1)] := color;
      }
    }

    /** `write_one(val)`.  The result is false when a backspace underflows
        the offset; the buffer and offset are then as they were at that
        point. */
    method WriteOne(val: bv8) returns (ok: bool)
      requires Valid()
      modifies this, buffer
      ensures Valid() && color == old(color)
      ensures ok <==> !Underflows(old(offset), val)
      ensures ok ==> Screen(buffer[..], offset) == Written(Screen(old(buffer[..]), old(offset)), color, val)
      ensures !ok ==> offset == old(offset)
      ensures !ok ==> buffer[..] == if old(offset) == 2 then Put(old(buffer[..]), 0, SPACE, color) else old(buffer[..])
      decreases if val == BACKSPACE then 1 else 0
    {
      if val == NEWLINE {
        offset := offset + WIDTH - offset % WIDTH - 2;
      } else if val == BACKSPACE {
        if offset < 2 {
          return false;
        }
        offset := offset - 2;
        var _ := WriteOne(SPACE);
        if offset < 4 {
          return false;
        }
        offset := offset - 4;
      } else {
        buffer[offset] := val;
        buffer[offset + 1] := color;
      }
      if offset < LAST_CELL {
        offset := offset + 2;
      } else {
        Scroll();
        offset := LAST_ROW;
      }
      ok := true;
    }
  }
}
