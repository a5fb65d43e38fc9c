/** The VGA text teletype: 80x25 character cells that show the last rows of an unbounded canvas. */
module VgaText {

  const WIDTH: nat := 80
  const HEIGHT: nat := 25
  const CELLS: nat := 2000
  const TAB: nat := 8

  type Byte = b: nat | b < 256
  type Cell = c: nat | c < 0x1_0000

  const BACKSPACE: Byte := 8
  const HTAB: Byte := 9
  const NEWLINE: Byte := 10
  const RETURN: Byte := 13
  const SPACE: Byte := 32

  /** A character and its attribute; as characters are signed, one from 128 on takes over the attribute. */
  function CellOf(c: Byte, attrib: Byte): Cell {
    if c < 128 then c + 256 * attrib else 0xFF00 + c
  }

  lemma AttributeKept(c: Byte, attrib: Byte)
    ensures CellOf(c, attrib) % 256 == c
    ensures CellOf(c, attrib) / 256 == attrib <==> c < 128 || attrib == 255
    ensures CellOf(c, attrib) == if c < 128 then c + 256 * attrib else c + 0xFF00
  {
  }

  // ---------------------------------------------------------------- moving memory

  /** Copies within a buffer, element by element from the start; the other branch of the code, for a
      destination after the source, ends only for at most one element. */
  method MoveDown<T>(a: array<T>, dest: nat, src: nat, count: nat)
    requires dest <= src && src + count <= a.Length
    modifies a
    ensures forall i :: dest <= i < dest + count ==> a[i] == old(a[src + (i - dest)])
    ensures forall i :: 0 <= i < dest || dest + count <= i < a.Length ==> a[i] == old(a[i])
  {
    for k := 0 to count
      invariant forall i :: dest <= i < dest + k ==> a[i] == old(a[src + (i - dest)])
      invariant forall i :: 0 <= i < dest || dest + k <= i < a.Length ==> a[i] == old(a[i])
    {
      a[dest + k] := a[src + k];
    }
  }

  // ---------------------------------------------------------------- the canvas

  /** Cells by position, rows after one another; the position to write at; the first row that is in view. */
  datatype Canvas = Canvas(cells: map<nat, Cell>, pos: nat, top: nat)

  function CellAt(v: Canvas, k: nat): Cell {
    if k in v.cells then v.cells[k] else 0
  }

  /** The view moves down as far as needed to show a position. */
  function MovedTo(v: Canvas, pos: nat): Canvas {
    v.(pos := pos, top := if pos / WIDTH < v.top + HEIGHT then v.top else pos / WIDTH - (HEIGHT - 1))
  }

  function Printed(v: Canvas, c: Byte, attrib: Byte): Canvas {
    MovedTo(v.(cells := v.cells[v.pos := CellOf(c, attrib)]), v.pos + 1)
  }

  function Spaces(v: Canvas, n: nat, attrib: Byte): Canvas {
    if n == 0 then v else Printed(Spaces(v, n - 1, attrib), SPACE, attrib)
  }

  /** The layout rules: wrap at the end of a row, backspace up to the first row in view, newline to the start of the
      next row, tabs filled with spaces, carriage return ignored. */
  function Typed(v: Canvas, c: Byte, attrib: Byte): Canvas {
    if c == BACKSPACE then (if v.pos > v.top * WIDTH then v.(pos := v.pos - 1) else v)
    else if c == NEWLINE then MovedTo(v, (v.pos / WIDTH + 1) * WIDTH)
    else if c == RETURN then v
    else if c == HTAB then Spaces(v, TAB - v.pos % WIDTH % TAB, attrib)
    else Printed(v, c, attrib)
  }

  function TypedAll(v: Canvas, s: seq<Byte>, attrib: Byte): Canvas {
    if s == [] then v else Typed(TypedAll(v, s[..|s| - 1], attrib), s[|s| - 1], attrib)
  }

  /** The position is in view, and nothing was written below. */
  ghost predicate InView(v: Canvas) {
    && v.top * WIDTH <= v.pos < v.top * WIDTH + CELLS
    && forall k :: k in v.cells ==> k < v.top * WIDTH + CELLS
  }

  /** The view of a canvas. */
  ghost predicate Shows(b: seq<Cell>, v: Canvas) {
    |b| == CELLS && forall i :: 0 <= i < CELLS ==> b[i] == CellAt(v, v.top * WIDTH + i)
  }

  lemma RowAndColumn(top: nat, x: nat, y: nat)
    requires x < WIDTH && y < HEIGHT
    ensures var pos := (top + y) * WIDTH + x;
            && pos / WIDTH == top + y && pos % WIDTH == x
            && (pos + 1) / WIDTH == (if x + 1 == WIDTH then top + y + 1 else top + y)
            && y * WIDTH + x < CELLS && pos == top * WIDTH + (y * WIDTH + x)
  {
  }

  lemma WrittenShows(b: seq<Cell>, v: Canvas, i: nat, cell: Cell)
    requires Shows(b, v) && InView(v) && i < CELLS && v.pos == v.top * WIDTH + i
    ensures Shows(b[i := cell], v.(cells := v.cells[v.pos := cell])) && InView(v.(cells := v.cells[v.pos := cell]))
  {
  }

  lemma NextColumn(b: seq<Cell>, v: Canvas, x: nat, y: nat)
    requires Shows(b, v) && InView(v) && x + 1 < WIDTH && y < HEIGHT && v.pos == (v.top + y) * WIDTH + x
    ensures Shows(b, v.(pos := v.pos + 1)) && InView(v.(pos := v.pos + 1))
            && MovedTo(v, v.pos + 1) == v.(pos := v.pos + 1)
  {
    RowAndColumn(v.top, x, y);
  }

  /** Writing a cell and going on, within the row or to the next one. */
  lemma PrintedShows(b: seq<Cell>, v: Canvas, x: nat, y: nat, c: Byte, attrib: Byte)
    requires Shows(b, v) && InView(v) && x < WIDTH && y < HEIGHT && v.pos == (v.top + y) * WIDTH + x
    ensures |b| == CELLS && y * WIDTH + x < CELLS
    ensures var w := v.(cells := v.cells[v.pos := CellOf(c, attrib)]);
            var shown := b[y * WIDTH + x := CellOf(c, attrib)];
            && Shows(shown, w) && InView(w)
            && if x + 1 == WIDTH then Printed(v, c, attrib) == MovedTo(w, (v.top + y + 1) * WIDTH)
               else Printed(v, c, attrib) == w.(pos := w.pos + 1) && Shows(shown, w.(pos := w.pos + 1))
                    && InView(w.(pos := w.pos + 1))
  {
    RowAndColumn(v.top, x, y);
    WrittenShows(b, v, y * WIDTH + x, CellOf(c, attrib));
    if x + 1 < WIDTH {
      NextColumn(b[y * WIDTH + x := CellOf(c, attrib)], v.(cells := v.cells[v.pos := CellOf(c, attrib)]), x, y);
    }
  }

  lemma MovedInView(v: Canvas, pos: nat)
    requires InView(v) && v.top * WIDTH <= pos <= v.top * WIDTH + CELLS
    ensures InView(MovedTo(v, pos))
    ensures MovedTo(v, pos).top == if pos == v.top * WIDTH + CELLS then v.top + 1 else v.top
  {
  }

  /** Moving the view down by a row. */
  lemma Scrolled(b: seq<Cell>, v: Canvas)
    requires Shows(b, v) && InView(v)
    ensures Shows(b[WIDTH..] + seq(WIDTH, i => 0), v.(top := v.top + 1, pos := (v.top + HEIGHT) * WIDTH))
  {
    var v' := v.(top := v.top + 1, pos := (v.top + HEIGHT) * WIDTH);
    var b' := b[WIDTH..] + seq(WIDTH, i => 0);
    forall i | 0 <= i < CELLS ensures b'[i] == CellAt(v', v'.top * WIDTH + i) {
      assert v'.top * WIDTH + i == v.top * WIDTH + (i + WIDTH);
    }
  }

  lemma PrintedInView(v: Canvas, c: Byte, attrib: Byte)
    requires InView(v)
    ensures InView(Printed(v, c, attrib)) && Printed(v, c, attrib).pos == v.pos + 1
  {
    MovedInView(v.(cells := v.cells[v.pos := CellOf(c, attrib)]), v.pos + 1);
  }

  lemma {:induction false} SpacesInView(v: Canvas, n: nat, attrib: Byte)
    requires InView(v)
    ensures InView(Spaces(v, n, attrib)) && Spaces(v, n, attrib).pos == v.pos + n
  {
    if n > 0 {
      SpacesInView(v, n - 1, attrib);
      PrintedInView(Spaces(v, n - 1, attrib), SPACE, attrib);
    }
  }

  // ---------------------------------------------------------------- what the rules mean

  /** A tab goes to the next multiple of eight, as rows are a multiple of eight wide. */
  lemma TabStops(v: Canvas, attrib: Byte)
    requires InView(v)
    ensures Typed(v, HTAB, attrib).pos == (v.pos / TAB + 1) * TAB
  {
    SpacesInView(v, TAB - v.pos % WIDTH % TAB, attrib);
    assert v.pos % WIDTH % TAB == v.pos % TAB by { RowOfTabs(v.pos); }
  }

  lemma RowOfTabs(pos: nat)
    ensures pos % WIDTH % TAB == pos % TAB
  {
    assert pos == WIDTH * (pos / WIDTH) + pos % WIDTH;
    assert WIDTH * (pos / WIDTH) == TAB * (10 * (pos / WIDTH));
  }

  /** A newline goes to the start of the next row and changes no cell. */
  lemma NextLine(v: Canvas, attrib: Byte)
    ensures var next := Typed(v, 10, attrib);
            next.pos % 80 == 0 && v.pos < next.pos <= v.pos + 80 && next.cells == v.cells
  {
  }

  /** A carriage return does nothing. */
  lemma ReturnIgnored(v: Canvas, attrib: Byte)
    ensures Typed(v, 13, attrib) == v
  {
  }

  /** A backspace changes no cell and goes one back, but not out of view. */
  lemma SteppedBack(v: Canvas, attrib: Byte)
    requires InView(v)
    ensures var back := Typed(v, 8, attrib);
            back.cells == v.cells && back.top == v.top && back.pos == if v.pos == 80 * v.top then v.pos else v.pos - 1
  {
  }

  /** A tab writes spaces into the cells it passes, and nothing else. */
  lemma TabBlanks(v: Canvas, attrib: Byte, k: nat)
    ensures CellAt(Typed(v, 9, attrib), k)
         == if v.pos <= k < (v.pos / 8 + 1) * 8 then 32 + 256 * attrib else CellAt(v, k)
  {
    RowOfTabs(v.pos);
    SpacesAt(v, TAB - v.pos % WIDTH % TAB, attrib, k);
  }

  lemma {:induction false} SpacesAt(v: Canvas, n: nat, attrib: Byte, k: nat)
    ensures Spaces(v, n, attrib).pos == v.pos + n
    ensures CellAt(Spaces(v, n, attrib), k) == if v.pos <= k < v.pos + n then 32 + 256 * attrib else CellAt(v, k)
  {
    if n > 0 { SpacesAt(v, n - 1, attrib, k); }
  }

  /** The view moves down only as far as it has to, so that the position is in its last row. */
  lemma ViewFollows(v: Canvas, c: Byte, attrib: Byte)
    requires InView(v)
    ensures var now := Typed(v, c, attrib);
            now.top == if now.pos / 80 < v.top + 25 then v.top else now.pos / 80 - 24
  {
    if c == HTAB { SpacesFollow(v, TAB - v.pos % WIDTH % TAB, attrib); }
  }

  lemma {:induction false} SpacesFollow(v: Canvas, n: nat, attrib: Byte)
    requires InView(v)
    ensures var now := Spaces(v, n, attrib);
            now.top == if now.pos / 80 < v.top + 25 then v.top else now.pos / 80 - 24
  {
    if n > 0 {
      SpacesFollow(v, n - 1, attrib);
      SpacesInView(v, n - 1, attrib);
      PrintedInView(Spaces(v, n - 1, attrib), SPACE, attrib);
    }
  }

  /** A backspace after a printed character goes back to it. */
  lemma BackspaceAfterPrint(v: Canvas, c: Byte, attrib: Byte)
    requires InView(v) && c !in {BACKSPACE, NEWLINE, RETURN, HTAB}
    ensures Typed(Typed(v, c, attrib), BACKSPACE, attrib).pos == v.pos
  {
    PrintedInView(v, c, attrib);
  }

  predicate Plain(s: seq<Byte>) {
    forall i :: 0 <= i < |s| ==> s[i] !in {BACKSPACE, NEWLINE, RETURN, HTAB}
  }

  /** Plain text lies on the canvas as it was typed, from the position on, and nothing else changes. */
  lemma {:induction false} PlainText(v: Canvas, s: seq<Byte>, attrib: Byte, k: nat)
    requires Plain(s)
    ensures TypedAll(v, s, attrib).pos == v.pos + |s|
    ensures CellAt(TypedAll(v, s, attrib), k)
         == if v.pos <= k < v.pos + |s| then CellOf(s[k - v.pos], attrib) else CellAt(v, k)
  {
    if s != [] { PlainText(v, s[..|s| - 1], attrib, k); }
  }

  /** Lines of text, each with a newline at its end. */
  function Text(lines: seq<seq<Byte>>): seq<Byte> {
    if lines == [] then [] else Text(lines[..|lines| - 1]) + lines[|lines| - 1] + [10]
  }

  /** The rows that the first i lines take. */
  function Rows(lines: seq<seq<Byte>>, i: nat): nat
    requires i <= |lines|
  {
    if i == 0 then 0 else Rows(lines, i - 1) + |lines[i - 1]| / 80 + 1
  }

  lemma {:induction false} ShortLines(lines: seq<seq<Byte>>, i: nat)
    requires i <= |lines| && forall j :: 0 <= j < |lines| ==> |lines[j]| < 80
    ensures Rows(lines, i) == i
  {
    if i > 0 { ShortLines(lines, i - 1); }
  }

  lemma {:induction false} TypedOn(v: Canvas, s: seq<Byte>, t: seq<Byte>, attrib: Byte)
    ensures TypedAll(v, s + t, attrib) == TypedAll(TypedAll(v, s, attrib), t, attrib)
    decreases |t|
  {
    if t == [] {
      assert s + t == s;
    } else {
      TypedOn(v, s, t[..|t| - 1], attrib);
      assert (s + t)[..|s + t| - 1] == s + t[..|t| - 1];
    }
  }

  lemma {:induction false} FewerRows(lines: seq<seq<Byte>>, i: nat, j: nat)
    requires i <= j <= |lines|
    ensures Rows(lines, i) <= Rows(lines, j)
    ensures i < j ==> |lines[i]| < 80 * (Rows(lines, j) - Rows(lines, i))
  {
    if i < j { FewerRows(lines, i, j - 1); }
  }

  lemma {:induction false} SameRows(lines: seq<seq<Byte>>, n: nat, i: nat)
    requires i <= n <= |lines|
    ensures Rows(lines[..n], i) == Rows(lines, i)
  {
    if i > 0 { SameRows(lines, n, i - 1); }
  }

  /** One line: from the start of a row it takes the rows it needs, its characters follow each other there, and the
      next line starts at the start of the next row. */
  lemma OneLine(v: Canvas, line: seq<Byte>, attrib: Byte, k: nat)
    requires Plain(line) && v.pos % 80 == 0
    ensures var now := TypedAll(v, line + [10], attrib);
            && now.pos == v.pos + 80 * (|line| / 80 + 1)
            && CellAt(now, k) == if v.pos <= k < v.pos + |line| then CellOf(line[k - v.pos], attrib) else CellAt(v, k)
  {
    TypedOn(v, line, [10], attrib);
    PlainText(v, line, attrib, k);
    var w := TypedAll(v, line, attrib);
    assert TypedAll(w, [10], attrib) == Typed(w, 10, attrib) by { assert [10][..0] == []; }
    assert v.pos == 80 * (v.pos / 80);
    RowsOf(v.pos / 80, |line|);
  }

  lemma RowsOf(row: nat, n: nat)
    ensures ((80 * row + n) / 80 + 1) * 80 == 80 * row + 80 * (n / 80 + 1)
  {
  }

  lemma LastLine(v: Canvas, text: seq<Byte>, rows: nat, line: seq<Byte>, attrib: Byte, k: nat)
    requires v.pos % 80 == 0 && Plain(line) && TypedAll(v, text, attrib).pos == v.pos + 80 * rows
    ensures var now := TypedAll(v, text + line + [10], attrib);
            var start := v.pos + 80 * rows;
            && now.pos == v.pos + 80 * (rows + |line| / 80 + 1)
            && CellAt(now, k) == if start <= k < start + |line| then CellOf(line[k - start], attrib)
                                 else CellAt(TypedAll(v, text, attrib), k)
  {
    hide *;
    assert text + line + [10] == text + (line + [10]);
    TypedOn(v, text, line + [10], attrib);
    OneLine(TypedAll(v, text, attrib), line, attrib, k);
  }

  lemma LinesEnd(lines: seq<seq<Byte>>)
    requires lines != []
    ensures var n := |lines| - 1;
            && Text(lines) == Text(lines[..n]) + lines[n] + [10]
            && Rows(lines, n + 1) == Rows(lines, n) + |lines[n]| / 80 + 1
            && Rows(lines[..n], n) == Rows(lines, n)
  {
    SameRows(lines, |lines| - 1, |lines| - 1);
  }

  lemma {:induction false} TextEnds(v: Canvas, lines: seq<seq<Byte>>, attrib: Byte)
    requires v.pos % 80 == 0 && forall j :: 0 <= j < |lines| ==> Plain(lines[j])
    ensures TypedAll(v, Text(lines), attrib).pos == v.pos + 80 * Rows(lines, |lines|)
  {
    if lines != [] {
      hide *;
      var n := |lines| - 1;
      TextEnds(v, lines[..n], attrib);
      LinesEnd(lines);
      LastLine(v, Text(lines[..n]), Rows(lines, n), lines[n], attrib, 0);
    }
  }

  /** Lines of plain text lie one below the other: each starts at the start of a row, right below the rows of the line
      before, however often the screen scrolls. */
  lemma {:induction false} TextLines(v: Canvas, lines: seq<seq<Byte>>, attrib: Byte, i: nat, k: nat)
    requires v.pos % 80 == 0 && forall j :: 0 <= j < |lines| ==> Plain(lines[j])
    requires i < |lines| && k < |lines[i]|
    ensures CellAt(TypedAll(v, Text(lines), attrib), v.pos + 80 * Rows(lines, i) + k) == CellOf(lines[i][k], attrib)
  {
    hide *;
    var n := |lines| - 1;
    var at := v.pos + 80 * Rows(lines, i) + k;
    TextEnds(v, lines[..n], attrib);
    LinesEnd(lines);
    LastLine(v, Text(lines[..n]), Rows(lines, n), lines[n], attrib, at);
    if i < n {
      TextLines(v, lines[..n], attrib, i, k);
      SameRows(lines, n, i);
      FewerRows(lines, i, n);
      assert at < v.pos + 80 * Rows(lines, n);
    }
  }

  // ---------------------------------------------------------------- the teletype

  class Teletype {
    const buffer: array<Cell>
    var x: nat
    var y: nat
    var attrib: Byte
    ghost var canvas: Canvas

    /** The cursor is on the screen, and the buffer shows the canvas around it. */
    ghost predicate Valid()
      reads this, buffer
    {
      && x < WIDTH && y < HEIGHT
      && InView(canvas) && Shows(buffer[..], canvas)
      && canvas.pos == (canvas.top + y) * WIDTH + x
    }

    constructor (buffer: array<Cell>, attrib: Byte)
      requires buffer.Length == CELLS
      ensures Valid() && this.buffer == buffer && canvas.pos == canvas.top == 0
      ensures this.attrib == attrib
    {
      this.buffer, this.x, this.y, this.attrib := buffer, 0, 0, attrib;
      canvas := Canvas(map k: nat | k < CELLS :: buffer[k], 0, 0);
    }

    method SetCursor(x: nat, y: nat)
      requires Valid()
      modifies this
      ensures Valid() && attrib == old(attrib)
      ensures canvas == if x < WIDTH && y < HEIGHT then old(canvas).(pos := (old(canvas.top) + y) * WIDTH + x)
                        else old(canvas)
    {
      if x >= WIDTH || y >= HEIGHT { return; }
      this.x, this.y := x, y;
      canvas := canvas.(pos := (canvas.top + y) * WIDTH + x);
    }

    /** Moves all rows up by one and clears the last one. */
    method ScrollUp()
      requires buffer.Length == CELLS
      modifies buffer
      ensures buffer[..] == old(buffer[..])[WIDTH..] + seq(WIDTH, i => 0)
    {
      MoveDown(buffer, 0, WIDTH, (HEIGHT - 1) * WIDTH);
      for k := 0 to WIDTH
        invariant forall i :: 0 <= i < CELLS ==>
          buffer[i] == if i < CELLS - WIDTH then old(buffer[i + WIDTH]) else if i < CELLS - WIDTH + k then 0
              else old(buffer[i])
      {
        buffer[(HEIGHT - 1) * WIDTH + k] := 0;
      }
    }

    /** The cursor goes to the start of the next row. */
    method NextRow()
      requires x < WIDTH && y < HEIGHT && InView(canvas) && Shows(buffer[..], canvas)
      modifies this, buffer
      ensures Valid() && attrib == old(attrib)
      ensures canvas == MovedTo(old(canvas), (old(canvas.top) + old(y) + 1) * WIDTH)
    {
      x := 0;
      if y == HEIGHT - 1 {
        Scrolled(buffer[..], canvas);
        ScrollUp();
      } else {
        y := y + 1;
      }
      canvas := MovedTo(canvas, (old(canvas.top) + old(y) + 1) * WIDTH);
    }

    /** Goes one position back, as far as it is on the screen. */
    method StepBack()
      requires Valid()
      modifies this
      ensures Valid() && canvas == Typed(old(canvas), BACKSPACE, attrib) && attrib == old(attrib)
    {
      if x == 0 {
        if y != 0 {
          y := y - 1;
          x := WIDTH - 1;
          canvas := canvas.(pos := canvas.pos - 1);
        }
      } else {
        x := x - 1;
        canvas := canvas.(pos := canvas.pos - 1);
      }
    }

    /** Writes a character cell and goes on. */
    method PutCell(c: Byte)
      requires Valid()
      modifies this, buffer
      ensures Valid() && canvas == Printed(old(canvas), c, attrib) && attrib == old(attrib)
    {
      hide Shows, InView, CellOf, MovedTo, Printed;
      PrintedShows(buffer[..], canvas, x, y, c, attrib);
      buffer[y * WIDTH + x] := CellOf(c, attrib);
      assert buffer[..] == old(buffer[..])[y * WIDTH + x := CellOf(c, attrib)];
      canvas := canvas.(cells := canvas.cells[canvas.pos := CellOf(c, attrib)]);
      if x + 1 == WIDTH {
        NextRow();
      } else {
        x := x + 1;
        canvas := canvas.(pos := canvas.pos + 1);
      }
    }

    /** Writes a character. */
    method Put(c: Byte)
      requires Valid()
      modifies this, buffer
      ensures Valid() && canvas == Typed(old(canvas), c, attrib) && attrib == old(attrib)
      decreases if c == HTAB then 1 else 0
    {
      RowAndColumn(canvas.top, x, y);
      hide Shows, InView, MovedTo, Printed;
      if c == BACKSPACE {
        StepBack();
      } else if c == NEWLINE {
        NextRow();
      } else if c == RETURN {
      } else if c == HTAB {
        var n := TAB - x % TAB;
        for k := 0 to n
          invariant Valid() && attrib == old(attrib) && canvas == Spaces(old(canvas), k, attrib)
        {
          Put(SPACE);
        }
      } else {
        PutCell(c);
      }
    }

    /** Any run of characters. */
    method PutAll(s: seq<Byte>)
      requires Valid()
      modifies this, buffer
      ensures Valid() && canvas == TypedAll(old(canvas), s, attrib) && attrib == old(attrib)
    {
      for i := 0 to |s|
        invariant Valid() && attrib == old(attrib) && canvas == TypedAll(old(canvas), s[..i], attrib)
      {
        assert s[..i + 1][..i] == s[..i];
        Put(s[i]);
      }
      assert s[..|s|] == s;
    }
  }
}
