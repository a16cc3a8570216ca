/**
 The diffing screen buffer. `Flush` compiles the difference between the grid it
 believes is on the terminal and the grid it wants there into escape sequences,
 leaving out cursor moves and colours that are already in force. The theorems run
 the emitted bytes through the terminal of module `Terminal`.
 */
module Screen {
  import opened Results
  import opened Bytes
  import opened Utf8
  import opened Abi
  import opened Terminal

  type Grid = seq<seq<Cell>>

  const MIN_WIDTH := 1
  const MAX_WIDTH := MAX_FRAME_WIDTH
  const MIN_HEIGHT := 1
  const MAX_HEIGHT := MAX_FRAME_HEIGHT
  const MAX_CELLS := 150_000

  const DEFAULT_BG := Rgb(25, 23, 29)
  const DEFAULT_FG := Rgb(200, 200, 200)

  predicate Rect(g: Grid, w: nat, h: nat) {
    |g| == h && forall y :: 0 <= y < h ==> |g[y]| == w
  }

  predicate CleanRow(row: seq<Cell>) {
    forall x :: 0 <= x < |row| ==> SafeRune(row[x].ch)
  }

  /** Every cell holds a sanitized character; in particular none is the unknown cell. */
  predicate Clean(g: Grid) {
    forall y :: 0 <= y < |g| ==> CleanRow(g[y])
  }

  // ----- what a cell looks like

  function StyleOf(c: Cell): (s: Style) {
    Style(TrueColor(if c.fg == BLACK then DEFAULT_FG else c.fg),
          TrueColor(if c.bg == BLACK then DEFAULT_BG else c.bg),
          c.decor % 2 == 1, c.decor / 2 % 2 == 1, c.decor / 4 % 2 == 1)
  }

  function Look(c: Cell): (s: Shown) {
    Shown(c.ch, StyleOf(c))
  }

  ghost predicate ShowsCell(t: Term, c: Cell, x: nat, y: nat) {
    Lookup(t.grid, Pos(x, y)) == Some(Look(c))
  }

  /** The terminal shows exactly this grid. */
  ghost predicate Shows(t: Term, g: Grid) {
    forall x: nat, y: nat :: y < |g| && x < |g[y]| ==> ShowsCell(t, g[y][x], x, y)
  }

  /** The terminal shows every cell the screen claims to know; a zero character claims nothing. */
  ghost predicate ShowsKnown(t: Term, g: Grid) {
    forall x: nat, y: nat :: y < |g| && x < |g[y]| && g[y][x].ch != 0 ==> ShowsCell(t, g[y][x], x, y)
  }

  /** Positions where the two grids differ, with the wanted appearance. */
  ghost function Changes(was: Grid, cur: Grid, w: nat, h: nat): (m: Canvas)
    requires Rect(was, w, h) && Rect(cur, w, h)
  {
    map x: nat, y: nat | 0 <= x < w && 0 <= y < h && cur[y][x] != was[y][x] :: Pos(x, y) := Look(cur[y][x])
  }

  // ----- the emitted bytes

  /** What the renderer believes about the terminal between two runs of cells. */
  datatype Pen = Pen(styled: bool, last: Cell, x: int, y: int)

  const FRESH_PEN := Pen(false, ZERO_CELL, -1, -1)

  predicate SameStyle(a: Cell, b: Cell) {
    a.fg == b.fg && a.bg == b.bg && a.decor == b.decor
  }

  /** End of the run of changed, equally styled cells that starts before `x`; a non-ASCII character ends its run. */
  function RunEnd(was: seq<Cell>, cur: seq<Cell>, style: Cell, x: nat): (e: nat)
    requires |was| == |cur| && x <= |cur|
    ensures x <= e <= |cur|
    ensures forall i :: x <= i < e ==> cur[i] != was[i] && SameStyle(cur[i], style)
    ensures forall i :: x <= i < e - 1 ==> IsAscii(cur[i].ch)
    decreases |cur| - x
  {
    if x < |cur| && cur[x] != was[x] && SameStyle(cur[x], style) then
      if IsAscii(cur[x].ch) then RunEnd(was, cur, style, x + 1) else x + 1
    else x
  }

  function MoveBytes(pen: Pen, x: nat, y: nat): (bs: bytes) {
    if pen.x != x || pen.y != y then CsiBytes([y + 1, x + 1], FINAL_CUP) else []
  }

  function DecorParams(decor: byte): (ps: seq<nat>)
    ensures ps != []
  {
    [0] + (if decor % 2 == 1 then [1] else [])
        + (if decor / 2 % 2 == 1 then [3] else [])
        + (if decor / 4 % 2 == 1 then [4] else [])
  }

  function ColorBytes(c: Rgb, foreground: bool): (bs: bytes) {
    var v := if c != BLACK then c else if foreground then DEFAULT_FG else DEFAULT_BG;
    CsiBytes([if foreground then 38 else 48, 2, v.r, v.g, v.b], FINAL_SGR)
  }

  predicate NeedsReset(pen: Pen, style: Cell) {
    !pen.styled || pen.last.decor != style.decor
  }

  function StyleBytes(pen: Pen, style: Cell): (bs: bytes) {
    var reset := NeedsReset(pen, style);
    (if reset then CsiBytes(DecorParams(style.decor), FINAL_SGR) else [])
    + (if reset || pen.last.bg != style.bg then ColorBytes(style.bg, false) else [])
    + (if reset || pen.last.fg != style.fg then ColorBytes(style.fg, true) else [])
  }

  function Glyphs(cells: seq<Cell>): (bs: bytes) {
    if cells == [] then [] else Encode(cells[0].ch) + Glyphs(cells[1..])
  }

  function Segment(pen: Pen, cur: seq<Cell>, start: nat, end: nat, y: nat): (bs: bytes)
    requires start < end <= |cur|
  {
    MoveBytes(pen, start, y) + StyleBytes(pen, cur[start]) + Glyphs(cur[start..end])
  }

  function PenAfter(cur: seq<Cell>, start: nat, end: nat, y: nat): (pen: Pen)
    requires start < end <= |cur|
  {
    Pen(true, cur[start], if IsAscii(cur[end - 1].ch) then end else -1, y)
  }

  function RowBytes(was: seq<Cell>, cur: seq<Cell>, y: nat, x: nat, pen: Pen): (r: (bytes, Pen))
    requires |was| == |cur| && x <= |cur|
    decreases |cur| - x
  {
    if x == |cur| then ([], pen)
    else if cur[x] == was[x] then RowBytes(was, cur, y, x + 1, pen)
    else
      var e := RunEnd(was, cur, cur[x], x);
      var rest := RowBytes(was, cur, y, e, PenAfter(cur, x, e, y));
      (Segment(pen, cur, x, e, y) + rest.0, rest.1)
  }

  lemma RowSkip(was: seq<Cell>, cur: seq<Cell>, y: nat, x: nat, pen: Pen)
    requires |was| == |cur| && x < |cur| && cur[x] == was[x]
    ensures RowBytes(was, cur, y, x, pen) == RowBytes(was, cur, y, x + 1, pen)
  {
    hide Segment, RunEnd;
  }

  lemma RowSegment(was: seq<Cell>, cur: seq<Cell>, y: nat, x: nat, pen: Pen)
    requires |was| == |cur| && x < |cur| && cur[x] != was[x]
    ensures var e := RunEnd(was, cur, cur[x], x);
      && x < e && var rest := RowBytes(was, cur, y, e, PenAfter(cur, x, e, y));
         RowBytes(was, cur, y, x, pen) == (Segment(pen, cur, x, e, y) + rest.0, rest.1)
  {
    hide Segment;
  }

  function RowsBytes(was: Grid, cur: Grid, y: nat, pen: Pen): (bs: bytes)
    requires |was| == |cur| && y <= |cur|
    requires forall i :: 0 <= i < |cur| ==> |cur[i]| == |was[i]|
    decreases |cur| - y
  {
    if y == |cur| then []
    else
      var row := RowBytes(was[y], cur[y], y, 0, pen);
      row.0 + RowsBytes(was, cur, y + 1, row.1)
  }

  function FlushBytes(was: Grid, cur: Grid): (bs: bytes)
    requires |was| == |cur| && forall i :: 0 <= i < |cur| ==> |cur[i]| == |was[i]|
  {
    RowsBytes(was, cur, 0, FRESH_PEN)
  }

  // ----- the bytes do what they are meant to do

  /** The renderer's beliefs are true of the terminal. */
  ghost predicate PenOk(t: Term, pen: Pen) {
    && (pen.styled ==> t.parser.Ground? && t.style == StyleOf(pen.last))
    && (pen.x >= 0 ==> pen.styled && pen.y >= 0 && (pen.x < t.w ==> t.cursor == At(pen.x, pen.y)))
  }

  /** `t'` differs from `t` at most in what was painted on row `y` in columns `[x, e)`, as `cells` say. */
  ghost predicate Painted(t: Term, t': Term, cells: seq<Cell>, was: seq<Cell>, y: nat, x: nat, e: nat)
    requires |was| == |cells| && x <= e <= |cells|
  {
    forall p: Pos :: Lookup(t'.grid, p) ==
      if p.y == y && x <= p.x < e && cells[p.x] != was[p.x] then Some(Look(cells[p.x])) else Lookup(t.grid, p)
  }

  /** `after` is `before` with `cells` laid out on row `y` from column `x`. */
  ghost predicate Laid(before: Canvas, after: Canvas, cells: seq<Cell>, y: nat, x: nat) {
    forall p: Pos :: Lookup(after, p) ==
      if p.y == y && x <= p.x < x + |cells| then Some(Look(cells[p.x - x])) else Lookup(before, p)
  }

  ghost predicate Wanted(target: Canvas, cells: seq<Cell>, y: nat, x: nat) {
    forall c: nat :: x <= c < x + |cells| ==> Pos(c, y) in target && target[Pos(c, y)] == Look(cells[c - x])
  }

  lemma LaidCons(before: Canvas, after: Canvas, cells: seq<Cell>, y: nat, x: nat)
    requires cells != [] && Laid(before[Pos(x, y) := Look(cells[0])], after, cells[1..], y, x + 1)
    ensures Laid(before, after, cells, y, x)
  {
  }

  lemma WantedTail(target: Canvas, cells: seq<Cell>, y: nat, x: nat)
    requires cells != [] && CleanRow(cells) && Wanted(target, cells, y, x)
    ensures CleanRow(cells[1..]) && Wanted(target, cells[1..], y, x + 1)
  {
  }

  lemma {:induction false} GlyphsRun(t: Term, cells: seq<Cell>, y: nat, x: nat, base: Canvas, target: Canvas)
    requires t.parser.Ground? && y < t.h && x + |cells| <= t.w
    requires cells != [] ==> t.cursor == At(x, y)
    requires CleanRow(cells) && Wanted(target, cells, y, x)
    requires forall i :: 0 <= i < |cells| ==> StyleOf(cells[i]) == t.style
    requires forall i :: 0 <= i < |cells| - 1 ==> IsAscii(cells[i].ch)
    requires Mixed(t.grid, base, target)
    ensures var r := Run(t, Glyphs(cells));
            && r == t.(grid := r.grid, cursor := r.cursor)
            && Laid(t.grid, r.grid, cells, y, x)
            && (cells != [] && IsAscii(cells[|cells| - 1].ch) && x + |cells| < t.w ==> r.cursor == At(x + |cells|, y))
    ensures Safe(t, Glyphs(cells), base, target)
    decreases |cells|
  {
    hide Encode, Step, StyleOf;
    if cells != [] {
      var head, rest := Encode(cells[0].ch), cells[1..];
      assert StyleOf(cells[0]) == t.style && SafeRune(cells[0].ch);
      GlyphRun(t, cells[0].ch, base, target);
      var u := Paint(t, cells[0].ch);
      assert u.grid == t.grid[Pos(x, y) := Look(cells[0])];
      assert Mixed(u.grid, base, target);
      WantedTail(target, cells, y, x);
      assert rest != [] ==> IsAscii(cells[0].ch);
      GlyphsRun(u, rest, y, x + 1, base, target);
      RunConcat(t, head, Glyphs(rest));
      SafeConcat(t, head, Glyphs(rest), base, target);
      LaidCons(t.grid, Run(u, Glyphs(rest)).grid, cells, y, x);
    }
  }

  lemma SgrDecor(s: Style, decor: byte)
    ensures Sgr(s, DecorParams(decor)) ==
            Style(DefaultColor, DefaultColor, decor % 2 == 1, decor / 2 % 2 == 1, decor / 4 % 2 == 1)
  {
    var ps := DecorParams(decor);
    var b, i, u := decor % 2 == 1, decor / 2 % 2 == 1, decor / 4 % 2 == 1;
    assert ps == [0] + (if b then [1] else []) + (if i then [3] else []) + (if u then [4] else []);
    assert ps[1..] == (if b then [1] else []) + (if i then [3] else []) + (if u then [4] else []);
    SgrUnderline(PLAIN.(bold := b, italic := i), u);
    SgrItalic(PLAIN.(bold := b), i, u);
    if b {
      assert ps[1..][1..] == (if i then [3] else []) + (if u then [4] else []);
    } else {
      assert ps[1..] == (if i then [3] else []) + (if u then [4] else []);
    }
  }

  lemma SgrUnderline(s: Style, u: bool)
    requires !s.underline
    ensures Sgr(s, if u then [4] else []) == s.(underline := u)
  {
    assert Sgr(s.(underline := true), []) == s.(underline := true);
  }

  lemma SgrItalic(s: Style, i: bool, u: bool)
    requires !s.underline && !s.italic
    ensures Sgr(s, (if i then [3] else []) + (if u then [4] else [])) == s.(italic := i, underline := u)
  {
    var tail := if u then [4] else [];
    SgrUnderline(s.(italic := i), u);
    if i {
      assert ([3] + tail)[1..] == tail;
    } else {
      assert [] + tail == tail;
    }
  }

  lemma ColorRun(t: Term, c: Rgb, foreground: bool, base: Canvas, target: Canvas)
    requires Mixed(t.grid, base, target)
    ensures var v := TrueColor(if c != BLACK then c else if foreground then DEFAULT_FG else DEFAULT_BG);
            Run(t, ColorBytes(c, foreground)) ==
            t.(style := if foreground then t.style.(fg := v) else t.style.(bg := v), parser := Ground)
    ensures Safe(t, ColorBytes(c, foreground), base, target)
  {
    var v := if c != BLACK then c else if foreground then DEFAULT_FG else DEFAULT_BG;
    var ps: seq<nat> := [if foreground then 38 else 48, 2, v.r, v.g, v.b];
    CsiRun(t, ps, FINAL_SGR, base, target);
    assert ps[5..] == [];
    var style := if foreground then t.style.(fg := TrueColor(v)) else t.style.(bg := TrueColor(v));
    assert Sgr(t.style, ps) == Sgr(style, []) == style;
  }

  /** The style part of a segment leaves the terminal in exactly the wanted style. */
  lemma StyleRun(t: Term, pen: Pen, style: Cell, base: Canvas, target: Canvas)
    requires PenOk(t, pen) && t.parser.Ground?
    requires Mixed(t.grid, base, target)
    ensures Run(t, StyleBytes(pen, style)) == t.(style := StyleOf(style))
    ensures Safe(t, StyleBytes(pen, style), base, target)
  {
    var reset := NeedsReset(pen, style);
    var a := if reset then CsiBytes(DecorParams(style.decor), FINAL_SGR) else [];
    var b := if reset || pen.last.bg != style.bg then ColorBytes(style.bg, false) else [];
    var c := if reset || pen.last.fg != style.fg then ColorBytes(style.fg, true) else [];
    if reset {
      CsiRun(t, DecorParams(style.decor), FINAL_SGR, base, target);
      SgrDecor(t.style, style.decor);
    }
    var u := Run(t, a);
    if reset || pen.last.bg != style.bg {
      ColorRun(u, style.bg, false, base, target);
    }
    RunConcat(t, a, b);
    SafeConcat(t, a, b, base, target);
    var v := Run(u, b);
    if reset || pen.last.fg != style.fg {
      ColorRun(v, style.fg, true, base, target);
    }
    RunConcat(t, a + b, c);
    SafeConcat(t, a + b, c, base, target);
    assert StyleBytes(pen, style) == a + b + c;
  }

  lemma MoveRun(t: Term, pen: Pen, x: nat, y: nat, base: Canvas, target: Canvas)
    requires PenOk(t, pen) && x < t.w && y < t.h
    requires Mixed(t.grid, base, target)
    ensures Run(t, MoveBytes(pen, x, y)) == t.(cursor := At(x, y), parser := Ground)
    ensures Safe(t, MoveBytes(pen, x, y), base, target)
  {
    if pen.x != x || pen.y != y {
      CsiRun(t, [y + 1, x + 1], FINAL_CUP, base, target);
    }
  }

  /** Cursor and style before a run of cells, elided or not, end up as the run needs them. */
  lemma SetupRun(t: Term, pen: Pen, style: Cell, x: nat, y: nat, base: Canvas, target: Canvas)
    requires PenOk(t, pen) && x < t.w && y < t.h
    requires Mixed(t.grid, base, target)
    ensures Run(t, MoveBytes(pen, x, y) + StyleBytes(pen, style)) ==
            t.(cursor := At(x, y), parser := Ground, style := StyleOf(style))
    ensures Safe(t, MoveBytes(pen, x, y) + StyleBytes(pen, style), base, target)
  {
    var move, look := MoveBytes(pen, x, y), StyleBytes(pen, style);
    MoveRun(t, pen, x, y, base, target);
    StyleRun(Run(t, move), pen.(x := -1), style, base, target);
    assert StyleBytes(pen.(x := -1), style) == look;
    RunConcat(t, move, look);
    SafeConcat(t, move, look, base, target);
  }

  /** One run of cells: whatever was elided, exactly the cells of the run are painted. */
  lemma SegmentRun(t: Term, pen: Pen, was: seq<Cell>, cur: seq<Cell>, start: nat, e: nat, y: nat,
                   base: Canvas, target: Canvas)
    requires PenOk(t, pen) && |cur| == |was| == t.w && y < t.h && CleanRow(cur)
    requires start < e <= |cur|
    requires forall i :: start <= i < e ==> cur[i] != was[i] && SameStyle(cur[i], cur[start])
    requires forall i :: start <= i < e - 1 ==> IsAscii(cur[i].ch)
    requires forall i: nat :: start <= i < e ==> Pos(i, y) in target && target[Pos(i, y)] == Look(cur[i])
    requires Mixed(t.grid, base, target)
    ensures var r := Run(t, Segment(pen, cur, start, e, y));
            PenOk(r, PenAfter(cur, start, e, y)) && r.w == t.w && r.h == t.h && Painted(t, r, cur, was, y, start, e)
    ensures Safe(t, Segment(pen, cur, start, e, y), base, target)
  {
    hide Step, Run, StyleBytes, MoveBytes, Glyphs, Safe, Mixed, Laid, Painted;
    var setup := MoveBytes(pen, start, y) + StyleBytes(pen, cur[start]);
    var cells := cur[start..e];
    SetupRun(t, pen, cur[start], start, y, base, target);
    var v := Run(t, setup);
    GlyphsRun(v, cells, y, start, base, target);
    RunConcat(t, setup, Glyphs(cells));
    SafeConcat(t, setup, Glyphs(cells), base, target);
    LaidIsPainted(t, Run(v, Glyphs(cells)), cur, was, y, start, e);
  }

  lemma LaidIsPainted(t: Term, r: Term, cur: seq<Cell>, was: seq<Cell>, y: nat, start: nat, e: nat)
    requires |was| == |cur| && start <= e <= |cur| && Laid(t.grid, r.grid, cur[start..e], y, start)
    requires forall i :: start <= i < e ==> cur[i] != was[i]
    ensures Painted(t, r, cur, was, y, start, e)
  {
    hide Look;
  }

  lemma {:induction false} RowRun(t: Term, pen: Pen, was: seq<Cell>, cur: seq<Cell>, y: nat, x: nat,
               base: Canvas, target: Canvas)
    requires PenOk(t, pen) && |cur| == |was| == t.w && y < t.h && CleanRow(cur) && x <= |cur|
    requires forall i: nat :: i < |cur| && cur[i] != was[i] ==> Pos(i, y) in target && target[Pos(i, y)] == Look(cur[i])
    requires Mixed(t.grid, base, target)
    ensures var row := RowBytes(was, cur, y, x, pen);
            var r := Run(t, row.0);
            && PenOk(r, row.1) && r.w == t.w && r.h == t.h
            && Painted(t, r, cur, was, y, x, |cur|)
            && Safe(t, row.0, base, target)
    decreases |cur| - x
  {
    hide RowBytes, Segment, Step, Mixed, Painted, Run, Safe;
    if x == |cur| {
      RowDone(was, cur, y, pen);
      RunsNothing(t, base, target);
      PaintedNothing(t, cur, was, y, x);
    } else if cur[x] == was[x] {
      RowSkip(was, cur, y, x, pen);
      RowRun(t, pen, was, cur, y, x + 1, base, target);
      PaintedSkip(t, Run(t, RowBytes(was, cur, y, x, pen).0), cur, was, y, x);
    } else {
      RowSegment(was, cur, y, x, pen);
      var e := RunEnd(was, cur, cur[x], x);
      var seg := Segment(pen, cur, x, e, y);
      SegmentRun(t, pen, was, cur, x, e, y, base, target);
      var u := Run(t, seg);
      SafePrefix(t, seg, |seg|, base, target);
      assert seg[..|seg|] == seg;
      var rest := RowBytes(was, cur, y, e, PenAfter(cur, x, e, y));
      RowRun(u, PenAfter(cur, x, e, y), was, cur, y, e, base, target);
      RunConcat(t, seg, rest.0);
      SafeConcat(t, seg, rest.0, base, target);
      PaintedJoin(t, u, Run(u, rest.0), cur, was, y, x, e);
    }
  }

  lemma RunsNothing(t: Term, base: Canvas, target: Canvas)
    requires Mixed(t.grid, base, target)
    ensures Run(t, []) == t && Safe(t, [], base, target)
  {}

  lemma PaintedNothing(t: Term, cells: seq<Cell>, was: seq<Cell>, y: nat, x: nat)
    requires |was| == |cells| && x <= |cells|
    ensures Painted(t, t, cells, was, y, x, x)
  {}

  lemma PaintedSkip(t: Term, r: Term, cells: seq<Cell>, was: seq<Cell>, y: nat, x: nat)
    requires |was| == |cells| && x < |cells| && cells[x] == was[x] && Painted(t, r, cells, was, y, x + 1, |cells|)
    ensures Painted(t, r, cells, was, y, x, |cells|)
  {
    hide Look;
  }

  lemma PaintedJoin(t: Term, u: Term, r: Term, cells: seq<Cell>, was: seq<Cell>, y: nat, x: nat, e: nat)
    requires |was| == |cells| && x <= e <= |cells| && Painted(t, u, cells, was, y, x, e) && Painted(u, r, cells, was, y, e, |cells|)
    ensures Painted(t, r, cells, was, y, x, |cells|)
  {
    hide Look;
  }

  /** Rows from `y` on are as wanted where they changed; everything else is as it was. */
  ghost predicate PaintedRows(t: Term, t': Term, was: Grid, cur: Grid, w: nat, h: nat, y: nat)
    requires Rect(was, w, h) && Rect(cur, w, h)
  {
    forall p: Pos :: Lookup(t'.grid, p) ==
      if y <= p.y < h && p.x < w && cur[p.y][p.x] != was[p.y][p.x] then Some(Look(cur[p.y][p.x])) else Lookup(t.grid, p)
  }

  lemma {:induction false} RowsRun(t: Term, pen: Pen, was: Grid, cur: Grid, y: nat, base: Canvas)
    requires Rect(was, t.w, t.h) && Rect(cur, t.w, t.h) && Clean(cur) && y <= t.h
    requires PenOk(t, pen) && Mixed(t.grid, base, Changes(was, cur, t.w, t.h))
    ensures var bs := RowsBytes(was, cur, y, pen);
            PaintedRows(t, Run(t, bs), was, cur, t.w, t.h, y) && Safe(t, bs, base, Changes(was, cur, t.w, t.h))
    decreases t.h - y
  {
    hide RowBytes, Step, Mixed, Run, Safe, Painted, PaintedRows;
    var target := Changes(was, cur, t.w, t.h);
    if y == t.h {
      RunsNothing(t, base, target);
      NoRowsPainted(t, was, cur, y);
    } else {
      ChangesWanted(was, cur, t.w, t.h, y);
      hide Changes;
      var row := RowBytes(was[y], cur[y], y, 0, pen);
      RowRun(t, pen, was[y], cur[y], y, 0, base, target);
      var u := Run(t, row.0);
      SafePrefix(t, row.0, |row.0|, base, target);
      assert row.0[..|row.0|] == row.0;
      RowsRun(u, row.1, was, cur, y + 1, base);
      var rest := RowsBytes(was, cur, y + 1, row.1);
      RunConcat(t, row.0, rest);
      SafeConcat(t, row.0, rest, base, target);
      RowsPaintedJoin(t, u, Run(u, rest), was, cur, y);
    }
  }

  lemma ChangesWanted(was: Grid, cur: Grid, w: nat, h: nat, y: nat)
    requires Rect(was, w, h) && Rect(cur, w, h) && y < h
    ensures forall i: nat :: i < w && cur[y][i] != was[y][i] ==>
      Pos(i, y) in Changes(was, cur, w, h) && Changes(was, cur, w, h)[Pos(i, y)] == Look(cur[y][i])
  {
    hide Look;
  }

  lemma NoRowsPainted(t: Term, was: Grid, cur: Grid, y: nat)
    requires Rect(was, t.w, t.h) && Rect(cur, t.w, t.h) && y == t.h
    ensures PaintedRows(t, t, was, cur, t.w, t.h, y)
  {}

  lemma RowsPaintedJoin(t: Term, u: Term, r: Term, was: Grid, cur: Grid, y: nat)
    requires Rect(was, t.w, t.h) && Rect(cur, t.w, t.h) && y < t.h
    requires Painted(t, u, cur[y], was[y], y, 0, t.w) && PaintedRows(u, r, was, cur, t.w, t.h, y + 1)
    ensures PaintedRows(t, r, was, cur, t.w, t.h, y)
  {
    hide Look;
  }

  /**
   The diff is exact: from any cursor, style and parser state, running the emitted
   bytes repaints precisely the changed cells; cut anywhere, the stream has painted
   only wanted cells.
   */
  lemma FlushPaints(t: Term, was: Grid, cur: Grid)
    requires Rect(was, t.w, t.h) && Rect(cur, t.w, t.h) && Clean(cur)
    ensures PaintedRows(t, Run(t, FlushBytes(was, cur)), was, cur, t.w, t.h, 0)
    ensures forall k :: 0 <= k <= |FlushBytes(was, cur)| ==>
              Mixed(Run(t, FlushBytes(was, cur)[..k]).grid, t.grid, Changes(was, cur, t.w, t.h))
  {
    var bs := FlushBytes(was, cur);
    RowsRun(t, FRESH_PEN, was, cur, 0, t.grid);
    forall k | 0 <= k <= |bs|
      ensures Mixed(Run(t, bs[..k]).grid, t.grid, Changes(was, cur, t.w, t.h))
    {
      SafePrefix(t, bs, k, t.grid, Changes(was, cur, t.w, t.h));
    }
  }

  // ----- complete, failed and repeated flushes

  /** The cells the diff will not repaint are already right on the terminal. */
  ghost predicate ShowsKept(t: Term, was: Grid, cur: Grid)
    requires |was| == |cur| && forall i :: 0 <= i < |cur| ==> |cur[i]| == |was[i]|
  {
    forall x: nat, y: nat :: y < |cur| && x < |cur[y]| && cur[y][x] == was[y][x] ==> ShowsCell(t, cur[y][x], x, y)
  }

  lemma KnownIsKept(t: Term, was: Grid, cur: Grid)
    requires Rect(was, t.w, t.h) && Rect(cur, t.w, t.h) && Clean(cur) && ShowsKnown(t, was)
    ensures ShowsKept(t, was, cur)
  {
    forall x: nat, y: nat | y < |cur| && x < |cur[y]| && cur[y][x] == was[y][x]
      ensures ShowsCell(t, cur[y][x], x, y)
    {
      assert SafeRune(cur[y][x].ch);
      assert ShowsCell(t, was[y][x], x, y);
    }
  }

  lemma FlushCompletes(t: Term, was: Grid, cur: Grid)
    requires Rect(was, t.w, t.h) && Rect(cur, t.w, t.h) && Clean(cur)
    requires ShowsKept(t, was, cur)
    ensures Shows(Run(t, FlushBytes(was, cur)), cur)
  {
    FlushPaints(t, was, cur);
    var r := Run(t, FlushBytes(was, cur));
    forall x: nat, y: nat | y < |cur| && x < |cur[y]|
      ensures ShowsCell(r, cur[y][x], x, y)
    {
      assert Lookup(r.grid, Pos(x, y)) ==
             if cur[y][x] != was[y][x] then Some(Look(cur[y][x])) else Lookup(t.grid, Pos(x, y));
      if cur[y][x] == was[y][x] {
        assert ShowsCell(t, cur[y][x], x, y);
      }
    }
  }

  /** If the terminal shows every known old cell, a complete flush makes it show exactly the current grid. */
  lemma FlushShows(t: Term, was: Grid, cur: Grid)
    requires Rect(was, t.w, t.h) && Rect(cur, t.w, t.h) && Clean(cur)
    requires ShowsKnown(t, was)
    ensures Shows(Run(t, FlushBytes(was, cur)), cur)
  {
    KnownIsKept(t, was, cur);
    FlushCompletes(t, was, cur);
  }

  lemma RunKeepsSize(t: Term, bs: bytes)
    ensures Run(t, bs).w == t.w && Run(t, bs).h == t.h
    decreases |bs|
  {
    if bs != [] {
      RunKeepsSize(Step(t, bs[0]), bs[1..]);
    }
  }

  /** A flush cut short anywhere leaves the untouched cells right. */
  lemma TornFlushKeeps(t: Term, was: Grid, cur: Grid, k: nat)
    requires Rect(was, t.w, t.h) && Rect(cur, t.w, t.h) && Clean(cur)
    requires k <= |FlushBytes(was, cur)| && ShowsKept(t, was, cur)
    ensures ShowsKept(Run(t, FlushBytes(was, cur)[..k]), was, cur)
  {
    FlushPaints(t, was, cur);
    var r := Run(t, FlushBytes(was, cur)[..k]);
    forall x: nat, y: nat | y < |cur| && x < |cur[y]| && cur[y][x] == was[y][x]
      ensures ShowsCell(r, cur[y][x], x, y)
    {
      assert ShowsCell(t, cur[y][x], x, y);
      assert Pos(x, y) !in Changes(was, cur, t.w, t.h);
      assert Lookup(r.grid, Pos(x, y)) == Lookup(t.grid, Pos(x, y));
    }
  }

  /** The terminal after a series of failed writes of the same bytes, the i-th cut after `cuts[i]` bytes. */
  function TornWrites(t: Term, bs: bytes, cuts: seq<nat>): (r: Term)
    requires forall i :: 0 <= i < |cuts| ==> cuts[i] <= |bs|
    decreases |cuts|
  {
    if cuts == [] then t else TornWrites(Run(t, bs[..cuts[0]]), bs, cuts[1..])
  }

  /** Any number of failed flushes of the same grid, then one that succeeds: every cell is right. */
  lemma {:induction false} RetryHeals(t: Term, was: Grid, cur: Grid, cuts: seq<nat>)
    requires Rect(was, t.w, t.h) && Rect(cur, t.w, t.h) && Clean(cur)
    requires forall i :: 0 <= i < |cuts| ==> cuts[i] <= |FlushBytes(was, cur)|
    requires ShowsKept(t, was, cur)
    ensures Shows(Run(TornWrites(t, FlushBytes(was, cur), cuts), FlushBytes(was, cur)), cur)
    decreases |cuts|
  {
    var bs := FlushBytes(was, cur);
    if cuts == [] {
      FlushCompletes(t, was, cur);
    } else {
      TornFlushKeeps(t, was, cur, cuts[0]);
      RunKeepsSize(t, bs[..cuts[0]]);
      RetryHeals(Run(t, bs[..cuts[0]]), was, cur, cuts[1..]);
    }
  }

  /** No cell that goes back to its old value was meant to look different in between. */
  ghost predicate NoVisibleRevert(was: Grid, cur: Grid, next: Grid, w: nat, h: nat)
    requires Rect(was, w, h) && Rect(cur, w, h) && Rect(next, w, h)
  {
    forall x: nat, y: nat :: y < h && x < w && next[y][x] == was[y][x] ==> Look(cur[y][x]) == Look(was[y][x])
  }

  lemma SwitchHeals(t: Term, was: Grid, cur: Grid, next: Grid, k: nat)
    requires Rect(was, t.w, t.h) && Rect(cur, t.w, t.h) && Rect(next, t.w, t.h)
    requires Clean(cur) && Clean(next) && ShowsKnown(t, was)
    requires NoVisibleRevert(was, cur, next, t.w, t.h) && k <= |FlushBytes(was, cur)|
    ensures Shows(Run(Run(t, FlushBytes(was, cur)[..k]), FlushBytes(was, next)), next)
  {
    var u := Run(t, FlushBytes(was, cur)[..k]);
    RunKeepsSize(t, FlushBytes(was, cur)[..k]);
    FlushPaints(t, was, cur);
    KnownIsKept(t, was, next);
    forall x: nat, y: nat | y < |next| && x < |next[y]| && next[y][x] == was[y][x]
      ensures ShowsCell(u, next[y][x], x, y)
    {
      assert ShowsCell(t, next[y][x], x, y);
      assert Lookup(u.grid, Pos(x, y)) == Lookup(t.grid, Pos(x, y));
    }
    FlushCompletes(u, was, next);
  }

  lemma SwitchFails(t: Term, was: Grid, cur: Grid, next: Grid, x: nat, y: nat)
    requires Rect(was, t.w, t.h) && Rect(cur, t.w, t.h) && Rect(next, t.w, t.h)
    requires Clean(cur) && Clean(next)
    requires y < t.h && x < t.w && next[y][x] == was[y][x] && Look(cur[y][x]) != Look(was[y][x])
    ensures !Shows(Run(Run(t, FlushBytes(was, cur)), FlushBytes(was, next)), next)
  {
    var u := Run(t, FlushBytes(was, cur));
    RunKeepsSize(t, FlushBytes(was, cur));
    FlushPaints(t, was, cur);
    FlushPaints(u, was, next);
    var r := Run(u, FlushBytes(was, next));
    assert Lookup(u.grid, Pos(x, y)) == Some(Look(cur[y][x]));
    assert Lookup(r.grid, Pos(x, y)) == Lookup(u.grid, Pos(x, y));
    assert !ShowsCell(r, next[y][x], x, y);
  }

  /**
   After a failed flush of `cur`, flushing a different grid `next` is sure to give
   the right screen exactly when no cell visibly reverts: the diff is taken against
   the grid from before the failure, so a reverted cell is not repainted.
   */
  lemma SwitchHealsIff(t: Term, was: Grid, cur: Grid, next: Grid)
    requires Rect(was, t.w, t.h) && Rect(cur, t.w, t.h) && Rect(next, t.w, t.h)
    requires Clean(cur) && Clean(next) && ShowsKnown(t, was)
    ensures (forall k :: 0 <= k <= |FlushBytes(was, cur)| ==>
               Shows(Run(Run(t, FlushBytes(was, cur)[..k]), FlushBytes(was, next)), next))
            <==> NoVisibleRevert(was, cur, next, t.w, t.h)
  {
    var bs := FlushBytes(was, cur);
    hide FlushBytes, Run, Shows, ShowsKnown, Clean;
    if NoVisibleRevert(was, cur, next, t.w, t.h) {
      forall k | 0 <= k <= |bs|
        ensures Shows(Run(Run(t, bs[..k]), FlushBytes(was, next)), next)
      {
        SwitchHeals(t, was, cur, next, k);
      }
    } else {
      var x: nat, y: nat :| y < t.h && x < t.w && next[y][x] == was[y][x] && Look(cur[y][x]) != Look(was[y][x]);
      SwitchFails(t, was, cur, next, x, y);
      assert bs[..|bs|] == bs;
    }
  }

  /** A one-cell screen on which the revert goes wrong: A is shown, B is torn, and A is not repainted. */
  lemma RevertStaysWrong()
    ensures var a := [[BLANK_CELL.(ch := 0x41)]];
            var b := [[BLANK_CELL.(ch := 0x42)]];
            exists t: Term :: t.w == t.h == 1 && Shows(t, a)
              && FlushBytes(a, a) == []
              && !Shows(Run(Run(t, FlushBytes(a, b)), FlushBytes(a, a)), a)
  {
    var ca, cb := BLANK_CELL.(ch := 0x41), BLANK_CELL.(ch := 0x42);
    var a, b: Grid := [[ca]], [[cb]];
    var t := Term(1, 1, map[Pos(0, 0) := Look(ca)], Lost, PLAIN, Ground);
    assert Shows(t, a) && ShowsKnown(t, a);
    EmptyFlush(a, a);
    FlushShows(t, a, b);
    var u := Run(t, FlushBytes(a, b));
    assert ShowsCell(u, b[0][0], 0, 0);
    assert !ShowsCell(u, a[0][0], 0, 0);
  }

  lemma {:induction false} EmptyRow(was: seq<Cell>, cur: seq<Cell>, y: nat, x: nat, pen: Pen)
    requires |was| == |cur| && x <= |cur|
    ensures RowBytes(was, cur, y, x, pen).0 == [] <==> was[x..] == cur[x..]
    ensures was[x..] == cur[x..] ==> RowBytes(was, cur, y, x, pen) == ([], pen)
    decreases |cur| - x
  {
    if x < |cur| {
      assert was[x..] == [was[x]] + was[x + 1..] && cur[x..] == [cur[x]] + cur[x + 1..];
      if cur[x] == was[x] {
        EmptyRow(was, cur, y, x + 1, pen);
      } else {
        var e := RunEnd(was, cur, cur[x], x);
        assert cur[x..e][0] == cur[x];
        assert Glyphs(cur[x..e]) != [];
        assert was[x..][0] != cur[x..][0];
      }
    }
  }

  lemma {:induction false} EmptyRows(was: Grid, cur: Grid, y: nat, pen: Pen)
    requires |was| == |cur| && y <= |cur| && forall i :: 0 <= i < |cur| ==> |cur[i]| == |was[i]|
    ensures RowsBytes(was, cur, y, pen) == [] <==> was[y..] == cur[y..]
    decreases |cur| - y
  {
    if y < |cur| {
      assert was[y..] == [was[y]] + was[y + 1..] && cur[y..] == [cur[y]] + cur[y + 1..];
      assert was[y][0..] == was[y] && cur[y][0..] == cur[y];
      EmptyRow(was[y], cur[y], y, 0, pen);
      EmptyRows(was, cur, y + 1, RowBytes(was[y], cur[y], y, 0, pen).1);
      if was[y] != cur[y] {
        assert was[y..][0] != cur[y..][0];
      }
    }
  }

  /** Nothing is written exactly when nothing changed. */
  lemma EmptyFlush(was: Grid, cur: Grid)
    requires |was| == |cur| && forall i :: 0 <= i < |cur| ==> |cur[i]| == |was[i]|
    ensures FlushBytes(was, cur) == [] <==> was == cur
  {
    EmptyRows(was, cur, 0, FRESH_PEN);
    assert was[0..] == was && cur[0..] == cur;
  }

  // ----- the screen object

  /** The screen buffer as a value. */
  datatype ScreenState = ScreenState(w: nat, h: nat, was: Grid, cur: Grid, failed: bool)

  predicate WellSized(s: ScreenState) {
    s.w >= 1 && s.h >= 1 && Rect(s.was, s.w, s.h) && Rect(s.cur, s.w, s.h)
  }

  function Clamp(v: int, lo: nat, hi: nat): (r: nat)
    requires lo <= hi
    ensures lo <= r <= hi
  {
    if v < lo then lo else if v > hi then hi else v
  }

  function Filled(w: nat, h: nat, c: Cell): (g: Grid)
    ensures Rect(g, w, h)
    ensures forall x: nat, y: nat :: y < h && x < w ==> g[y][x] == c
  {
    var row := seq(w, _ => c);
    seq(h, _ => row)
  }

  /** A resized screen knows nothing about the terminal and wants blanks. */
  function Resized(w: int, h: int, failed: bool): (s: ScreenState)
    ensures WellSized(s) && Clean(s.cur)
    ensures MIN_WIDTH <= w <= MAX_WIDTH && MIN_HEIGHT <= h <= MAX_HEIGHT ==> s.w == w && s.h == h
    ensures forall x: nat, y: nat :: y < s.h && x < s.w ==> s.was[y][x].ch == 0
  {
    var h' := Clamp(h, MIN_HEIGHT, MAX_HEIGHT);
    var w0 := Clamp(w, MIN_WIDTH, MAX_WIDTH);
    var w' := if w0 > MAX_CELLS / h' then MAX_CELLS / h' else w0;
    ScreenState(w', h', Filled(w', h', ZERO_CELL), Filled(w', h', BLANK_CELL), failed)
  }

  /** One row of cells copied into the wanted grid; excess cells are dropped, a short row leaves the rest. */
  function RowSet(s: ScreenState, y: int, cells: seq<Cell>): (r: ScreenState)
    requires WellSized(s)
    ensures WellSized(r) && r == s.(cur := r.cur)
    ensures 0 <= y < s.h && |cells| == s.w ==> r.cur == s.cur[y := cells]
  {
    if y < 0 || y >= s.h || cells == [] then s
    else if |cells| >= s.w then
      assert |cells| == s.w ==> cells[..s.w] == cells;
      s.(cur := s.cur[y := cells[..s.w]])
    else s.(cur := s.cur[y := cells + s.cur[y][|cells|..]])
  }

  /** Only row `y` changes, and of it only the columns the new cells reach. */
  lemma RowSetCells(s: ScreenState, y: int, cells: seq<Cell>, i: nat, j: nat)
    requires WellSized(s) && j < s.h && i < s.w
    ensures var r := RowSet(s, y, cells);
      && WellSized(r) && r.was == s.was && r.failed == s.failed
      && r.cur[j][i] == if j == y && i < |cells| then cells[i] else s.cur[j][i]
  {}

  /** The outcome of a flush whose writer takes `n` bytes and reports `err`. */
  function Flushed(s: ScreenState, n: nat, err: bool): (r: ScreenState)
    requires WellSized(s)
    ensures WellSized(r) && r.cur == s.cur
  {
    var b := FlushBytes(s.was, s.cur);
    if b == [] then s
    else if err || n != |b| then s.(failed := true)
    else s.(failed := false, was := s.cur)
  }

  lemma {:induction false} GlyphsSnoc(cells: seq<Cell>, c: Cell)
    ensures Glyphs(cells + [c]) == Glyphs(cells) + Encode(c.ch)
    decreases |cells|
  {
    if cells == [] {
      assert cells + [c] == [c];
      assert Glyphs([c]) == Encode(c.ch) + Glyphs([]);
    } else {
      assert (cells + [c])[1..] == cells[1..] + [c];
      GlyphsSnoc(cells[1..], c);
    }
  }

  lemma FilledSnoc(w: nat, h: nat, c: Cell, row: seq<Cell>)
    requires |row| == w && forall x :: 0 <= x < w ==> row[x] == c
    ensures Filled(w, h, c) + [row] == Filled(w, h + 1, c)
  {
    assert row == seq(w, _ => c);
  }

  lemma ResizedForm(width: int, height: int, failed: bool)
    ensures var s := Resized(width, height, failed); var t := Resized(width, height, false);
      s == ScreenState(t.w, t.h, Filled(t.w, t.h, ZERO_CELL), Filled(t.w, t.h, BLANK_CELL), failed)
  {
    hide Filled;
  }

  /** The size checks of `Resize`, in its order. */
  method ClampSize(width: int, height: int) returns (w: nat, h: nat)
    ensures MIN_WIDTH <= w <= MAX_WIDTH && MIN_HEIGHT <= h <= MAX_HEIGHT && w * h <= MAX_CELLS
    ensures w == Resized(width, height, false).w && h == Resized(width, height, false).h
    ensures MIN_WIDTH <= width <= MAX_WIDTH ==> w == width
    ensures MIN_HEIGHT <= height <= MAX_HEIGHT ==> h == height
  {
    hide Filled;
    w := if width < MIN_WIDTH then MIN_WIDTH else if width > MAX_WIDTH then MAX_WIDTH else width;
    h := if height < MIN_HEIGHT then MIN_HEIGHT else if height > MAX_HEIGHT then MAX_HEIGHT else height;
    if w > MAX_CELLS / h {
      w := MAX_CELLS / h;
    }
    CellsFit(h);
    AreaFits(w, h);
  }

  /** The cell limit never bites: the largest screen just meets it. */
  lemma CellsFit(h: nat)
    requires MIN_HEIGHT <= h <= MAX_HEIGHT
    ensures MAX_CELLS / h >= MAX_WIDTH
  {
    var q, r := MAX_CELLS / h, MAX_CELLS % h;
    assert MAX_CELLS == h * q + r && MAX_CELLS == MAX_HEIGHT * MAX_WIDTH;
    assert q < MAX_WIDTH ==> h * q + r < h * (q + 1) <= h * MAX_WIDTH <= MAX_HEIGHT * MAX_WIDTH;
  }

  lemma AreaFits(w: nat, h: nat)
    requires w <= MAX_WIDTH && h <= MAX_HEIGHT
    ensures w * h <= MAX_CELLS
  {
    assert w * h <= MAX_WIDTH * h <= MAX_WIDTH * MAX_HEIGHT;
  }

  class ScreenBuffer {
    var w: nat
    var h: nat
    var was: Grid
    var cur: Grid
    var failed: bool

    ghost function View(): (s: ScreenState)
      reads this
    {
      ScreenState(w, h, was, cur, failed)
    }

    constructor (width: int, height: int)
      ensures View() == Resized(width, height, false)
    {
      failed := false;
      new;
      Resize(width, height);
    }

    /**
     Clamps the size to the limits and allocates row by row. Nothing is known about the
     terminal any more and every wanted cell is blank, so whatever is flushed next is
     painted in full.
     */
    method Resize(width: int, height: int)
      modifies this
      ensures View() == Resized(width, height, old(failed))
      ensures MIN_WIDTH <= width <= MAX_WIDTH && MIN_HEIGHT <= height <= MAX_HEIGHT ==> w == width && h == height
      ensures WellSized(View()) && forall x: nat, y: nat :: y < h && x < w ==> was[y][x].ch == 0 && cur[y][x] == BLANK_CELL
    {
      var nw, nh := ClampSize(width, height);
      var wasRows: Grid, curRows: Grid := [], [];
      while |curRows| < nh
        invariant |wasRows| == |curRows| <= nh && failed == old(failed)
        invariant wasRows == Filled(nw, |wasRows|, ZERO_CELL) && curRows == Filled(nw, |curRows|, BLANK_CELL)
      {
        var blank: seq<Cell> := [];
        while |blank| < nw
          invariant |blank| <= nw && failed == old(failed) && forall x :: 0 <= x < |blank| ==> blank[x] == BLANK_CELL
        {
          blank := blank + [BLANK_CELL];
        }
        FilledSnoc(nw, |curRows|, BLANK_CELL, blank);
        FilledSnoc(nw, |wasRows|, ZERO_CELL, seq(nw, _ => ZERO_CELL));
        wasRows, curRows := wasRows + [seq(nw, _ => ZERO_CELL)], curRows + [blank];
      }
      ResizedForm(width, height, failed);
      w, h, was, cur := nw, nh, wasRows, curRows;
    }

    method SetRow(y: int, cells: seq<Cell>)
      requires WellSized(View())
      modifies this
      ensures View() == RowSet(old(View()), y, cells)
    {
      if y < 0 || y >= h || |cells| == 0 {
        return;
      }
      var kept := cells;
      if |kept| > w {
        kept := kept[..w];
      }
      assert |cells| == w ==> cells[..w] == cells && cells + cur[y][w..] == cells;
      cur := cur[y := kept + cur[y][|kept|..]];
      assert |cells| >= w ==> kept + old(cur)[y][|kept|..] == cells[..w];
    }

    /**
     `Flush`. The writer accepts `n` bytes and reports `err`; `b` is what was handed
     to it, so the terminal receives the first `n` bytes of `b`.
     */
    method Flush(n: nat, err: bool) returns (b: bytes)
      requires WellSized(View())
      modifies this
      ensures b == FlushBytes(old(was), old(cur))
      ensures View() == Flushed(old(View()), n, err)
    {
      var dirty;
      b, dirty := EmitRows(was, cur);
      EmptyFlush(was, cur);
      if |b| > 0 {
        failed := err || n != |b|;
        if !failed {
          CopyRows(dirty);
        }
      }
    }

    method CopyRows(dirty: seq<nat>)
      requires |was| == |cur| && forall i :: 0 <= i < |dirty| ==> dirty[i] < |cur|
      requires forall i :: 0 <= i < |cur| ==> i in dirty || was[i] == cur[i]
      modifies this`was
      ensures was == cur
    {
      for i := 0 to |dirty|
        invariant |was| == |cur|
        invariant forall j :: 0 <= j < |cur| ==> was[j] == cur[j] || j in dirty[i..]
      {
        assert dirty[i..] == [dirty[i]] + dirty[i + 1..];
        was := was[dirty[i] := cur[dirty[i]]];
      }
    }
  }

  /** The row loop of `Flush`: the bytes, and the rows that a successful write must copy. */
  method EmitRows(was: Grid, cur: Grid) returns (b: bytes, dirty: seq<nat>)
    requires |was| == |cur| && forall i :: 0 <= i < |cur| ==> |cur[i]| == |was[i]|
    ensures b == FlushBytes(was, cur)
    ensures forall i :: 0 <= i < |dirty| ==> dirty[i] < |cur|
    ensures forall i :: 0 <= i < |cur| ==> i in dirty || was[i] == cur[i]
  {
    hide RowBytes;
    b, dirty := [], [];
    var pen := FRESH_PEN;
    for y := 0 to |cur|
      invariant b + RowsBytes(was, cur, y, pen) == FlushBytes(was, cur)
      invariant forall i :: 0 <= i < |dirty| ==> dirty[i] < |cur|
      invariant forall i :: 0 <= i < y ==> i in dirty || was[i] == cur[i]
    {
      // Memory equality of the rows: cell equality up to padding bytes, which may differ at will.
      var sameMemory: bool :| sameMemory ==> cur[y] == was[y];
      ghost var row := RowBytes(was[y], cur[y], y, 0, pen);
      ghost var rest := RowsBytes(was, cur, y + 1, row.1);
      assert RowsBytes(was, cur, y, pen) == row.0 + rest;
      if sameMemory {
        EmptyRow(was[y], cur[y], y, 0, pen);
        assert [] + rest == rest;
      } else {
        dirty := dirty + [y];
        var line, next := EmitRow(was[y], cur[y], y, pen);
        assert b + (line + rest) == (b + line) + rest;
        b, pen := b + line, next;
      }
    }
    assert b + [] == b;
  }

  /** The cell loop of `Flush` over one row; `pen` holds `last`, `styled`, `cursorX` and `cursorY`. */
  method EmitRow(wasRow: seq<Cell>, curRow: seq<Cell>, y: nat, pen: Pen) returns (b: bytes, next: Pen)
    requires |wasRow| == |curRow|
    ensures b == RowBytes(wasRow, curRow, y, 0, pen).0
    ensures next == RowBytes(wasRow, curRow, y, 0, pen).1
  {
    hide RowBytes, Segment, PenAfter;
    b, next := [], pen;
    var x := 0;
    assert b + RowBytes(wasRow, curRow, y, 0, pen).0 == RowBytes(wasRow, curRow, y, 0, pen).0;
    while x < |curRow|
      invariant x <= |curRow|
      invariant b + RowBytes(wasRow, curRow, y, x, next).0 == RowBytes(wasRow, curRow, y, 0, pen).0
      invariant RowBytes(wasRow, curRow, y, x, next).1 == RowBytes(wasRow, curRow, y, 0, pen).1
    {
      if curRow[x] == wasRow[x] {
        RowSkip(wasRow, curRow, y, x, next);
        x := x + 1;
        continue;
      }
      RowSegment(wasRow, curRow, y, x, next);
      var e := FindRunEnd(wasRow, curRow, curRow[x], x);
      var seg, after := EmitRun(curRow, x, e, y, next);
      ghost var rest := RowBytes(wasRow, curRow, y, e, after).0;
      assert b + (seg + rest) == (b + seg) + rest;
      b, next, x := b + seg, after, e;
    }
    RowDone(wasRow, curRow, y, next);
    assert b + [] == b;
  }

  lemma RowDone(was: seq<Cell>, cur: seq<Cell>, y: nat, pen: Pen)
    requires |was| == |cur|
    ensures RowBytes(was, cur, y, |cur|, pen) == ([], pen)
  {}

  /** The scan that ends a run of cells. */
  method FindRunEnd(wasRow: seq<Cell>, curRow: seq<Cell>, style: Cell, start: nat) returns (x: nat)
    requires |wasRow| == |curRow| && start < |curRow|
    requires curRow[start] != wasRow[start] && style == curRow[start]
    ensures x == RunEnd(wasRow, curRow, style, start) && x > start
  {
    x := start;
    while x < |curRow| && curRow[x] != wasRow[x] && SameStyle(curRow[x], style)
      invariant start <= x <= |curRow|
      invariant RunEnd(wasRow, curRow, style, start) == RunEnd(wasRow, curRow, style, x)
    {
      x := x + 1;
      if !IsAscii(curRow[x - 1].ch) {
        break;
      }
    }
  }

  /** Style changes; the decoration reset comes first because it also resets the colours. */
  method EmitStyle(pen: Pen, style: Cell) returns (b: bytes)
    ensures b == StyleBytes(pen, style)
  {
    var reset := !pen.styled || pen.last.decor != style.decor;
    b := if reset then CsiBytes(DecorParams(style.decor), FINAL_SGR) else [];
    var bg := if reset || pen.last.bg != style.bg then ColorBytes(style.bg, false) else [];
    b := b + bg;
    var fg := if reset || pen.last.fg != style.fg then ColorBytes(style.fg, true) else [];
    b := b + fg;
  }

  /** One run: the moves and colours that are not already in force, then its glyphs. */
  method EmitRun(curRow: seq<Cell>, start: nat, x: nat, y: nat, pen: Pen) returns (b: bytes, next: Pen)
    requires start < x <= |curRow|
    requires forall i :: start <= i < x - 1 ==> IsAscii(curRow[i].ch)
    ensures b == Segment(pen, curRow, start, x, y)
    ensures next == PenAfter(curRow, start, x, y)
  {
    hide StyleBytes, CsiBytes, Glyphs;
    var style, cells := curRow[start], curRow[start..x];
    var move := if pen.x != start || pen.y != y then CsiBytes([y + 1, start + 1], FINAL_CUP) else [];
    var look := EmitStyle(pen, style);
    var glyphs, lost := EmitGlyphs(cells);
    b := move + look + glyphs;
    assert cells[x - 1 - start] == curRow[x - 1];
    assert forall i :: 0 <= i < |cells| - 1 ==> cells[i] == curRow[start + i] && IsAscii(cells[i].ch);
    next := Pen(true, style, if lost then -1 else x, y);
  }

  /** The glyphs of a run; a non-ASCII one makes the cursor position unreliable. */
  method EmitGlyphs(cells: seq<Cell>) returns (b: bytes, lost: bool)
    ensures b == Glyphs(cells)
    ensures lost <==> exists i :: 0 <= i < |cells| && !IsAscii(cells[i].ch)
  {
    b, lost := [], false;
    for i := 0 to |cells|
      invariant b == Glyphs(cells[..i])
      invariant lost <==> exists j :: 0 <= j < i && !IsAscii(cells[j].ch)
    {
      var ch := cells[i].ch;
      GlyphsSnoc(cells[..i], cells[i]);
      assert cells[..i + 1] == cells[..i] + [cells[i]];
      if IsAscii(ch) {
        b := b + [ch];
      } else {
        b, lost := b + Encode(ch), true;
      }
    }
    assert cells[..|cells|] == cells;
  }
}
