/** console/console.c: text output on the tiled framebuffer, specified on the plain
    grid of pixels. */
module Console {
  import opened Tiles

  /** Colours are only stored and compared. */
  type Color = int

  /** Where the text area lies: size of the screen in tiles, border, rows and columns. */
  datatype Layout = Layout(tw: nat, th: nat, ox: nat, oy: nat, cols: nat, rows: nat) {
    /** The glyph cells lie on the screen. */
    ghost predicate Ok() {
      0 < tw && 0 < th && ox + 8 * cols <= 32 * tw && oy + 16 * rows <= 32 * th && 1 <= cols && 2 <= rows
    }
  }

  /** console_init: the layout for a mode of `width` by `height` pixels. */
  function LayoutOf(width: nat, height: nat, overscan: bool): Layout {
    var ox, oy := if overscan then width / 28 else 0, if overscan then height / 28 else 0;
    Layout((width + 31) / 32, (height + 31) / 32, ox, oy, (width - 2 * ox) / 8, (height - 2 * oy) / 16)
  }

  lemma LayoutOk(width: nat, height: nat, overscan: bool)
    ensures var l := LayoutOf(width, height, overscan); l.Ok() <==> l.cols >= 1 && l.rows >= 2
  {
  }

  /** High definition with overscan: a border of one twenty-eighth, cells of 8 by 16. */
  lemma HighDefinition()
    ensures LayoutOf(1280, 720, true) == Layout(40, 23, 45, 25, 148, 41)
    ensures LayoutOf(1280, 720, false) == Layout(40, 23, 0, 0, 160, 45)
  {
  }

  /** The row after console_newline. */
  function NextRow(row: int, rows: nat): int {
    if row + 1 >= rows then row + 1 - 2 else row + 1
  }

  /** The cursor starts on row 0, and scrolling goes back by two text rows: from every
      row on the screen the next one is on the screen exactly when there are two. */
  lemma RowsNeeded(rows: nat)
    ensures (forall r: nat | r == 0 || r < rows :: 0 <= NextRow(r, rows) < rows) <==> rows >= 2
    ensures rows < 2 ==> NextRow(0, rows) == -1
  {
    if rows < 2 {
      assert NextRow(0, rows) == -1;
    }
  }

  /** Modes too low for two rows: with no row and with one, the first new line leaves
      the screen. */
  lemma LowModes()
    ensures LayoutOf(640, 15, false).rows == 0 && NextRow(0, LayoutOf(640, 15, false).rows) == -1
    ensures LayoutOf(640, 16, false).rows == 1 && NextRow(0, LayoutOf(640, 16, false).rows) == -1
  {
  }

  /** A word after those from `lo` to `hi` took the value `bs` further on. */
  function Shifted(s: seq<Color>, lo: int, hi: int, bs: nat, k: int): Color
    requires 0 <= k < |s|
  {
    if lo <= k < hi && k + bs < |s| then s[k + bs] else s[k]
  }

  /** A screen as its user sees it: the cursor and the grid of pixels. */
  datatype Page = Page(cx: nat, cy: nat, grid: seq<seq<Color>>)
  datatype Style = Style(at: Layout, font: (nat, nat, nat) -> bool, bg: Color, fg: Color)

  function Glyph(f: Style, c: nat, lx: nat, ly: nat): Color {
    if f.font(c, lx, ly) then f.fg else f.bg
  }

  /** A pixel after character `c` was drawn in cell (i, j). */
  function Typed(f: Style, c: nat, i: nat, j: nat, x: int, y: int, before: Color): Color {
    var u, v := x - (8 * i + f.at.ox), y - (16 * j + f.at.oy);
    if 0 <= u < 8 && 0 <= v < 16 then Glyph(f, c, u, v) else before
  }

  /** The grid with `c` at the cursor. */
  function Drawn(f: Style, p: Page, c: nat): seq<seq<Color>> {
    seq(|p.grid|, y requires 0 <= y < |p.grid| =>
      seq(|p.grid[y]|, x requires 0 <= x < |p.grid[y]| => Typed(f, c, p.cx, p.cy, x, y, p.grid[y][x])))
  }

  /** A new line: on the last of at least two rows the picture moves up by 32 pixel
      rows. */
  function Broken(f: Style, p: Page): Page {
    if p.cy + 1 < f.at.rows || p.cy == 0 then Page(0, p.cy + 1, p.grid)
    else Page(0, p.cy - 1, seq(|p.grid|, y requires 0 <= y < |p.grid| =>
      if y + 32 < |p.grid| then p.grid[y + 32] else seq(|p.grid[y]|, _ => f.bg)))
  }

  function Put(f: Style, p: Page, c: nat): Page {
    if c == 13 then p.(cx := 0)
    else if c == 10 then Broken(f, p)
    else
      var q := Page(p.cx + 1, p.cy, Drawn(f, p, c));
      if q.cx < f.at.cols then q else Broken(f, q)
  }

  function PutAll(f: Style, p: Page, text: seq<nat>): Page {
    if text == [] then p else Put(f, PutAll(f, p, text[..|text| - 1]), text[|text| - 1])
  }

  /** The pixel lies in one of the `n` cells from (i, j) to the right. */
  predicate OnLine(f: Style, i: nat, j: nat, n: nat, x: int, y: int) {
    f.at.ox + 8 * i <= x < f.at.ox + 8 * (i + n) && f.at.oy + 16 * j <= y < f.at.oy + 16 * (j + 1)
  }

  /** A line of text that fits before the right border shows its glyphs side by side
      and leaves everything else as it was. */
  lemma {:induction false} LineShown(f: Style, p: Page, text: seq<nat>, x: nat, y: nat)
    requires p.cx + |text| < f.at.cols && 10 !in text && 13 !in text
    requires y < |p.grid| && x < |p.grid[y]|
    ensures var q := PutAll(f, p, text);
      && q.cx == p.cx + |text| && q.cy == p.cy && |q.grid| == |p.grid| && |q.grid[y]| == |p.grid[y]|
      && q.grid[y][x] ==
           if OnLine(f, p.cx, p.cy, |text|, x, y) then
             var u := x - (f.at.ox + 8 * p.cx);
             Glyph(f, text[u / 8], u % 8, y - (f.at.oy + 16 * p.cy))
           else p.grid[y][x]
    decreases |text|
  {
    if text != [] {
      var n := |text| - 1;
      LineShown(f, p, text[..n], x, y);
    }
  }

  lemma {:induction false} PutConcat(f: Style, p: Page, a: seq<nat>, b: seq<nat>)
    ensures PutAll(f, p, a + b) == PutAll(f, PutAll(f, p, a), b)
    decreases |b|
  {
    hide Put;
    if b == [] {
      assert a + b == a;
    } else {
      var n := |b| - 1;
      PutConcat(f, p, a, b[..n]);
      assert (a + b)[..|a + b| - 1] == a + b[..n];
    }
  }

  lemma PutOne(f: Style, p: Page, c: nat)
    ensures PutAll(f, p, [c]) == Put(f, p, c)
  {
    assert [c][..0] == [] && PutAll(f, p, []) == p;
  }

  /** Everything is 32 pixel rows further up, and the rows at the bottom are blank. */
  ghost predicate MovedUp(a: seq<seq<Color>>, b: seq<seq<Color>>, bg: Color) {
    && |b| == |a| && (forall y: nat | y + 32 < |a| :: b[y] == a[y + 32])
    && (forall y: nat | y < |a| && |a| <= y + 32 :: BlankRow(b[y], |a[y]|, bg))
  }

  ghost predicate BlankRow(r: seq<Color>, n: nat, bg: Color) {
    |r| == n && forall x: nat | x < n :: r[x] == bg
  }

  /** A line feed starts the next row; on the last row the picture moves up by 32 pixel
      rows, that is two text rows, and the cursor by one. A carriage return starts the row
      again. Neither draws anything. */
  lemma ControlCodes(f: Style, p: Page)
    requires f.at.rows >= 2 && p.cy < f.at.rows
    ensures PutAll(f, p, [13]) == Page(0, p.cy, p.grid)
    ensures p.cy + 1 < f.at.rows ==> PutAll(f, p, [10]) == Page(0, p.cy + 1, p.grid)
    ensures p.cy + 1 == f.at.rows ==>
      var q := PutAll(f, p, [10]); q.cx == 0 && q.cy == p.cy - 1 && MovedUp(p.grid, q.grid, f.bg)
  {
    PutOne(f, p, 13);
    PutOne(f, p, 10);
  }

  /** Lines of text with line feeds between them. */
  function Joined(lines: seq<seq<nat>>): seq<nat> {
    if lines == [] then []
    else if |lines| == 1 then lines[0]
    else Joined(lines[..|lines| - 1]) + [10] + lines[|lines| - 1]
  }

  /** The first line starts at the cursor, the others at the left border. */
  function StartOf(p: Page, i: nat): nat {
    if i == 0 then p.cx else 0
  }

  /** The pixel of the lines there, if there is one. */
  function Shown(f: Style, p: Page, lines: seq<seq<nat>>, i: nat, x: nat, y: nat): Color
    requires i <= |lines| && y < |p.grid| && x < |p.grid[y]|
    decreases i
  {
    if i == 0 then p.grid[y][x]
    else if OnLine(f, StartOf(p, i - 1), p.cy + i - 1, |lines[i - 1]|, x, y) then
      var u := x - (f.at.ox + 8 * StartOf(p, i - 1));
      Glyph(f, lines[i - 1][u / 8], u % 8, y - (f.at.oy + 16 * (p.cy + i - 1)))
    else Shown(f, p, lines, i - 1, x, y)
  }

  /** Lines that fit show row by row, each in a row of its own. */
  lemma {:induction false} RowsShown(f: Style, p: Page, lines: seq<seq<nat>>, x: nat, y: nat)
    requires lines != [] && p.cy + |lines| <= f.at.rows
    requires forall i: nat | i < |lines| ::
      StartOf(p, i) + |lines[i]| < f.at.cols && 10 !in lines[i] && 13 !in lines[i]
    requires y < |p.grid| && x < |p.grid[y]|
    ensures var q, n := PutAll(f, p, Joined(lines)), |lines| - 1;
      && q.cx == StartOf(p, n) + |lines[n]| && q.cy == p.cy + n && |q.grid| == |p.grid| && |q.grid[y]| == |p.grid[y]|
      && q.grid[y][x] == Shown(f, p, lines, |lines|, x, y)
    decreases |lines|
  {
    hide Put, PutAll, Glyph, OnLine;
    var n := |lines| - 1;
    if n == 0 {
      LineShown(f, p, lines[0], x, y);
    } else {
      var most, last := lines[..n], lines[n];
      RowsShown(f, p, most, x, y);
      var q := PutAll(f, p, Joined(most));
      PutConcat(f, p, Joined(most) + [10], last);
      PutConcat(f, p, Joined(most), [10]);
      ControlCodes(f, q);
      LineShown(f, PutAll(f, q, [10]), last, x, y);
      ShownPrefix(f, p, lines, most, n, x, y);
    }
  }

  lemma {:induction false} ShownPrefix(f: Style, p: Page, a: seq<seq<nat>>, b: seq<seq<nat>>, i: nat, x: nat, y: nat)
    requires i <= |a| && i <= |b| && a[..i] == b[..i] && y < |p.grid| && x < |p.grid[y]|
    ensures Shown(f, p, a, i, x, y) == Shown(f, p, b, i, x, y)
    decreases i
  {
    hide Glyph, OnLine;
    if i > 0 {
      assert a[i - 1] == a[..i][i - 1] == b[i - 1];
      assert a[..i - 1] == a[..i][..i - 1] == b[..i - 1];
      ShownPrefix(f, p, a, b, i - 1, x, y);
    }
  }

  class Screen {
    const at: Layout
    const fb: array<Color>
    /** Whether the font sets the pixel of a character. */
    const font: (nat, nat, nat) -> bool
    const bg: Color
    const fg: Color
    var cx: nat
    var cy: nat

    ghost predicate Shape()
      reads this
    {
      at.Ok() && fb.Length == 1024 * (at.tw * at.th)
    }

    predicate OnScreen(x: int, y: int) {
      0 <= x < 32 * at.tw && 0 <= y < 32 * at.th
    }

    /** The pixel grid. */
    function Pixel(x: int, y: int): Color
      requires Shape() && OnScreen(x, y)
      reads this, fb
    {
      BaseInRange(x, y, at.tw, at.th);
      fb[Base(x, y, at.tw)]
    }

    ghost predicate BlankFrom(top: int)
      requires Shape()
      reads this, fb
    {
      forall x, y | OnScreen(x, y) && y >= top :: Pixel(x, y) == bg
    }

    /** The cursor is inside the text area and everything below its row is blank. */
    ghost predicate Valid()
      reads this, fb
    {
      Shape() && cx < at.cols && cy < at.rows && BlankFrom(at.oy + 16 * (cy + 1))
    }

    constructor (l: Layout, frame: array<Color>, glyphs: (nat, nat, nat) -> bool, back: Color, fore: Color)
      requires l.Ok() && frame.Length == 1024 * (l.tw * l.th)
      modifies frame
      ensures Valid() && at == l && fb == frame && font == glyphs && bg == back && fg == fore && cx == 0 && cy == 0
      ensures BlankFrom(0)
    {
      at, fb, font, bg, fg, cx, cy := l, frame, glyphs, back, fore, 0, 0;
      new;
      Clear();
    }

    /** console_pset32: one pixel of the grid changes. */
    method Pset(x: nat, y: nat, color: Color)
      requires Shape() && OnScreen(x, y)
      modifies fb
      ensures forall u, v | OnScreen(u, v) :: Pixel(u, v) == if u == x && v == y then color else old(Pixel(u, v))
    {
      hide Base;
      BaseInRange(x, y, at.tw, at.th);
      fb[Base(x, y, at.tw)] := color;
      forall u, v | OnScreen(u, v) && !(u == x && v == y)
        ensures Base(u, v, at.tw) != Base(x, y, at.tw)
      {
        if Base(u, v, at.tw) == Base(x, y, at.tw) {
          BaseInjective(x, y, u, v, at.tw);
        }
      }
    }

    /** console_clrscr: the whole grid is background. */
    method Clear()
      requires Shape()
      modifies this`cx, this`cy, fb
      ensures Shape() && cx == 0 && cy == 0 && BlankFrom(0)
    {
      hide Base;
      for i := 0 to fb.Length
        invariant forall k | 0 <= k < i :: fb[k] == bg
      {
        fb[i] := bg;
      }
      cx, cy := 0, 0;
      forall x, y | OnScreen(x, y)
        ensures Pixel(x, y) == bg
      {
        BaseInRange(x, y, at.tw, at.th);
      }
    }

    function Face(): Style {
      Style(at, font, bg, fg)
    }

    /** console_draw_char: the 8 by 16 cell at (x, y) shows the glyph. */
    method DrawChar(x: nat, y: nat, c: nat)
      requires Shape() && x + 8 <= 32 * at.tw && y + 16 <= 32 * at.th
      modifies fb
      ensures forall u, v | OnScreen(u, v) ::
        Pixel(u, v) == if x <= u < x + 8 && y <= v < y + 16 then Glyph(Face(), c, u - x, v - y) else old(Pixel(u, v))
    {
      hide Base;
      for ly := 0 to 16
        invariant forall u, v | OnScreen(u, v) ::
          Pixel(u, v) == if x <= u < x + 8 && y <= v < y + ly then Glyph(Face(), c, u - x, v - y) else old(Pixel(u, v))
      {
        DrawLine(x, y, c, ly);
      }
    }

    method DrawLine(x: nat, y: nat, c: nat, ly: nat)
      requires Shape() && x + 8 <= 32 * at.tw && y + 16 <= 32 * at.th && ly < 16
      modifies fb
      ensures forall u, v | OnScreen(u, v) ::
        Pixel(u, v) == if x <= u < x + 8 && v == y + ly then Glyph(Face(), c, u - x, ly) else old(Pixel(u, v))
    {
      hide Base;
      for lx := 0 to 8
        invariant forall u, v | OnScreen(u, v) ::
          Pixel(u, v) == if x <= u < x + lx && v == y + ly then Glyph(Face(), c, u - x, ly) else old(Pixel(u, v))
      {
        Pset(x + lx, y + ly, Glyph(Face(), c, lx, ly));
      }
    }

    // ----- Scrolling

    /** Copies a band of tiles over the one before it. */
    method CopyBand(to: nat, bs: nat)
      requires to + bs + bs <= fb.Length
      modifies fb
      ensures forall k | 0 <= k < fb.Length :: fb[k] == Shifted(old(fb[..]), to, to + bs, bs, k)
    {
      ghost var s := fb[..];
      for i := 0 to bs
        invariant forall k | 0 <= k < fb.Length :: fb[k] == Shifted(s, to, to + i, bs, k)
      {
        fb[to + i] := fb[to + bs + i];
      }
    }

    /** The framebuffer after the copies and the fill. */
    method ScrollWords()
      requires Shape()
      modifies fb
      ensures forall k | 0 <= k < fb.Length ::
        fb[k] == if k < fb.Length - 1024 * at.tw then old(fb[..])[k + 1024 * at.tw] else bg
    {
      ghost var s := fb[..];
      var bs := 1024 * at.tw;
      Bands(at.tw, at.th);
      var l := 1;
      ghost var done := 0;
      while l * 32 < 32 * at.th
        invariant 1 <= l <= at.th && done == bs * l - bs && 0 <= done <= done + bs <= fb.Length
        invariant forall k | 0 <= k < fb.Length :: fb[k] == Shifted(s, 0, done, bs, k)
      {
        NextBand(bs, l, at.th);
        CopyBand(bs * l - bs, bs);
        l, done := l + 1, done + bs;
      }
      var from := fb.Length - bs;
      for k := from to fb.Length
        invariant forall i | 0 <= i < from :: fb[i] == s[i + bs]
        invariant forall i | from <= i < k :: fb[i] == bg
      {
        fb[k] := bg;
      }
    }

    /** console_scroll32(1): the grid moves up by 32 rows. */
    method Scroll()
      requires Shape()
      modifies fb
      ensures forall x, y | OnScreen(x, y) ::
        Pixel(x, y) == if y + 32 < 32 * at.th then old(Pixel(x, y + 32)) else bg
    {
      hide Base;
      ghost var s := fb[..];
      ScrollWords();
      forall x, y | OnScreen(x, y)
        ensures Pixel(x, y) == if y + 32 < 32 * at.th then old(Pixel(x, y + 32)) else bg
      {
        BaseInRange(x, y, at.tw, at.th);
        BaseDown(x, y, at.tw);
        if y + 32 < 32 * at.th {
          BaseInRange(x, y + 32, at.tw, at.th);
        } else {
          BaseLast(x, y, at.tw, at.th);
          Bands(at.tw, at.th);
        }
      }
    }

    // ----- Text

    /** console_newline. */
    method Newline()
      requires Shape() && cx <= at.cols && cy < at.rows && BlankFrom(at.oy + 16 * (cy + 1))
      modifies this`cx, this`cy, fb
      ensures Valid() && cx == 0 && cy == NextRow(old(cy), at.rows) && BlankFrom(at.oy + 16 * cy)
      ensures forall x, y | OnScreen(x, y) ::
        Pixel(x, y) == if old(cy) + 1 < at.rows then old(Pixel(x, y))
                       else if y + 32 < 32 * at.th then old(Pixel(x, y + 32)) else bg
    {
      hide Base;
      cx := 0;
      cy := cy + 1;
      if cy >= at.rows {
        Scroll();
        cy := cy - 2;
        forall x, y | OnScreen(x, y) && y >= at.oy + 16 * cy
          ensures Pixel(x, y) == bg
        {
          if y + 32 < 32 * at.th {
            assert OnScreen(x, y + 32) && old(Pixel(x, y + 32)) == bg;
          }
        }
      }
    }

    /** What the screen shows. */
    ghost function Shown(): Page
      requires Shape()
      reads this, fb
    {
      Page(cx, cy, seq(32 * at.th, y requires 0 <= y < 32 * at.th reads this, fb =>
        seq(32 * at.tw, x requires 0 <= x < 32 * at.tw reads this, fb => Pixel(x, y))))
    }

    /** console_putch for character code `c`. */
    method Putch(c: nat)
      requires Valid()
      modifies this`cx, this`cy, fb
      ensures Valid() && Shown() == Put(Face(), old(Shown()), c)
    {
      hide Base, Broken, Drawn;
      if c == 13 {
        cx := 0;
        ShownIs(old(Shown()).(cx := 0));
      } else if c == 10 {
        NextLine();
      } else {
        TypeAt(c);
        if cx >= at.cols {
          NextLine();
        }
      }
    }

    method NextLine()
      requires Shape() && cx <= at.cols && cy < at.rows && BlankFrom(at.oy + 16 * (cy + 1))
      modifies this`cx, this`cy, fb
      ensures Valid() && Shown() == Broken(Face(), old(Shown()))
    {
      hide Base;
      Newline();
      ShownIs(Broken(Face(), old(Shown())));
    }

    /** Draws at the cursor and moves it on, perhaps past the last column. */
    method TypeAt(c: nat)
      requires Valid()
      modifies this`cx, fb
      ensures Shape() && cx == old(cx) + 1 && BlankFrom(at.oy + 16 * (cy + 1))
      ensures Shown() == Page(old(cx) + 1, cy, Drawn(Face(), old(Shown()), c))
    {
      hide Base;
      DrawChar(8 * cx + at.ox, 16 * cy + at.oy, c);
      cx := cx + 1;
      ShownIs(Page(cx, cy, Drawn(Face(), old(Shown()), c)));
    }

    /** Pixel by pixel. */
    lemma ShownIs(p: Page)
      requires Shape() && p.cx == cx && p.cy == cy && |p.grid| == 32 * at.th
      requires forall y | 0 <= y < 32 * at.th :: |p.grid[y]| == 32 * at.tw
      requires forall x, y | OnScreen(x, y) :: p.grid[y][x] == Pixel(x, y)
      ensures Shown() == p
    {
      hide Base;
      forall y | 0 <= y < 32 * at.th
        ensures Shown().grid[y] == p.grid[y]
      {
        forall x | 0 <= x < 32 * at.tw
          ensures Shown().grid[y][x] == p.grid[y][x]
        {
          assert OnScreen(x, y);
        }
      }
    }

    /** console_stdout_hook. */
    method Write(text: seq<nat>)
      requires Valid()
      modifies this`cx, this`cy, fb
      ensures Valid() && Shown() == PutAll(Face(), old(Shown()), text)
    {
      hide Put, Valid;
      Facts();
      for i := 0 to |text|
        invariant Valid() && Shape() && Shown() == PutAll(Face(), old(Shown()), text[..i])
      {
        Putch(text[i]);
        Facts();
        assert text[..i + 1][..i] == text[..i];
      }
      assert text[..|text|] == text;
    }

    lemma Facts()
      requires Valid()
      ensures Shape()
    {
    }
  }

  lemma Bands(tw: nat, th: nat)
    requires th > 0
    ensures 1024 * tw * th == 1024 * (tw * th) && 1024 * (tw * th) - 1024 * tw == 1024 * (tw * (th - 1)) >= 0
    ensures 1024 * tw * 1 <= 1024 * (tw * th)
  {
    assert tw * th == tw * (th - 1) + tw;
  }

  lemma NextBand(bs: nat, l: nat, th: nat)
    requires l < th
    ensures bs * l + bs == bs * (l + 1) <= bs * th
  {
    Times(l + 1, th, bs);
  }
}
