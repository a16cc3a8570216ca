/**
 The layout and what it paints, in coordinates: where children, padding, runes, border
 strokes and canvas calls end up, stated by index rather than by drawing order.
 */
module LayoutLaws {
  import opened Results
  import opened Runes
  import opened Layout

  // ----- children and padding

  /** What is left for content keeps one cell for a border, and the padding asked for, on each side. */
  lemma InnerSides(node: Node, r: Rect)
    ensures var edge, c := if node.border == NoBorder then 0 else 1, Inner(node, r);
      r.w > 2 * edge && r.h > 2 * edge ==>
        && c.x - r.x == edge + node.padding.left && (r.x + r.w) - (c.x + c.w) == edge + node.padding.right
        && c.y - r.y == edge + node.padding.top && (r.y + r.h) - (c.y + c.h) == edge + node.padding.bottom
    ensures r.w <= 2 && node.border != NoBorder ==> Empty(Inner(node, r))
    ensures r.h <= 2 && node.border != NoBorder ==> Empty(Inner(node, r))
  {}

  /** The room before and after a child across the main axis. */
  function RoomBefore(node: Node, r: Rect, c: Rect): (n: int) {
    if node.direction == Column then c.x - r.x else c.y - r.y
  }

  function RoomAfter(node: Node, r: Rect, c: Rect): (n: int) {
    if node.direction == Column then (r.x + r.w) - (c.x + c.w) else (r.y + r.h) - (c.y + c.h)
  }

  /** Across it a child is stretched, starts at the edge, ends at the edge, or is centred to within one cell, nearer the start. */
  lemma AlignedAcross(node: Node, r: Rect, k: nat)
    requires !Empty(r) && k < |node.children| && node.children[k].Some?
    ensures var c := ChildRect(node, r, k); var before, after := RoomBefore(node, r, c), RoomAfter(node, r, c);
      && before >= 0 && after >= 0
      && (node.align == Stretch ==> before == 0 && after == 0)
      && (node.align == Start ==> before == 0)
      && (node.align == End ==> after == 0)
      && (node.align == Center ==> 0 <= after - before <= 1)
      && (node.align != Stretch && node.direction == Column ==> c.w == Min(Intrinsic(node.children[k].value, Row), r.w))
      && (node.align != Stretch && node.direction == Row ==> c.h == Min(Intrinsic(node.children[k].value, Column), r.h))
  {
    hide Position, Extent, Intrinsic;
  }

  /** Along it each child follows the one before it after exactly the gap: downwards in a column, to the right in a row. */
  lemma {:induction false} FollowsAfterGap(node: Node, r: Rect, j: nat, k: nat)
    requires j < k < |node.children| && node.children[j].Some? && node.children[k].Some?
    requires forall i :: j < i < k ==> node.children[i].None?
    ensures var a, b := ChildRect(node, r, j), ChildRect(node, r, k);
      && (node.direction == Column ==> b.y == a.y + a.h + node.gap)
      && (node.direction == Row ==> b.x == a.x + a.w + node.gap)
  {
    SkipAbsent(node, MainSize(node, r), j + 1, k);
    hide Extent, CrossPosition, CrossSize;
  }

  lemma {:induction false} SkipAbsent(node: Node, main: int, j: nat, k: nat)
    requires j <= k <= |node.children| && forall i :: j <= i < k ==> node.children[i].None?
    ensures Position(node, main, k) == Position(node, main, j)
    decreases k
  {
    if j < k {
      SkipAbsent(node, main, j, k - 1);
    }
  }

  // ----- where every rune, border cell and canvas call ends up

  const BREAK: nat := 10

  /** Row and column of rune `k`: the newlines before it, and the runes since the last of them. */
  function RowOf(t: Text, k: nat): (n: nat)
    requires k <= |t|
  {
    if k == 0 then 0 else RowOf(t, k - 1) + if t[k - 1].code == BREAK then 1 else 0
  }

  function ColOf(t: Text, k: nat): (n: nat)
    requires k <= |t|
  {
    if k == 0 || t[k - 1].code == BREAK then 0 else ColOf(t, k - 1) + 1
  }

  lemma {:induction false} FirstLine(t: Text, k: nat)
    requires k <= LineEnd(t)
    ensures RowOf(t, k) == 0 && ColOf(t, k) == k
    decreases k
  {
    if k > 0 {
      FirstLine(t, k - 1);
    }
  }

  lemma {:induction false} LaterLine(t: Text, k: nat)
    requires LineEnd(t) < k <= |t|
    ensures var m := LineEnd(t) + 1;
      RowOf(t, k) == 1 + RowOf(t[m..], k - m) && ColOf(t, k) == ColOf(t[m..], k - m)
    decreases k
  {
    var m := LineEnd(t) + 1;
    if k == m {
      FirstLine(t, k - 1);
    } else {
      LaterLine(t, k - 1);
      assert t[m..][k - m - 1] == t[k - 1];
    }
  }

  lemma {:induction false} LinesUnfold(t: Text)
    requires t != []
    ensures Lines(t) == [t[..LineEnd(t)]] + Lines(NextLine(t))
    ensures LineEnd(t) < |t| ==> NextLine(t) == t[LineEnd(t) + 1..]
    ensures LineEnd(t) == |t| ==> NextLine(t) == []
  {
    hide LineEnd;
  }

  /** Splitting into lines puts every rune that is not a newline at its row and column. */
  lemma {:induction false} LineHolds(t: Text, k: nat)
    requires k < |t| && t[k].code != BREAK
    ensures RowOf(t, k) < |Lines(t)| && ColOf(t, k) < |Lines(t)[RowOf(t, k)]|
    ensures Lines(t)[RowOf(t, k)][ColOf(t, k)] == t[k]
    decreases |t|
  {
    hide Lines, RowOf, ColOf, LineEnd, NextLine;
    var n := LineEnd(t);
    LinesUnfold(t);
    if k < n {
      FirstLine(t, k);
    } else {
      assert k > n;
      LaterLine(t, k);
      LineHolds(NextLine(t), k - n - 1);
    }
  }

  lemma {:induction false} NoLines(t: Text)
    requires Lines(t) != []
    ensures t != []
  {}

  /** And nothing else. */
  lemma {:induction false} LineRune(t: Text, row: nat, col: nat) returns (k: nat)
    requires row < |Lines(t)| && col < |Lines(t)[row]|
    ensures k < |t| && t[k].code != BREAK && RowOf(t, k) == row && ColOf(t, k) == col
    decreases |t|
  {
    hide Lines, RowOf, ColOf, LineEnd, NextLine;
    NoLines(t);
    var n := LineEnd(t);
    LinesUnfold(t);
    if row == 0 {
      k := col;
      FirstLine(t, k);
    } else {
      NoLines(NextLine(t));
      var m := LineRune(NextLine(t), row - 1, col);
      k := m + n + 1;
      LaterLine(t, k);
    }
  }

  /** Printable runes as they are, controls as the replacement character. */
  predicate Drawn(code: nat, shown: nat) {
    shown == if 0x20 <= code <= 0x7E || code >= 0xA0 then code else 0xFFFD
  }

  /** Of a text drawn into a rectangle each rune stands at its row and column, if that is inside, and there is nothing else. */
  lemma {:induction false} TextShows(r: Rect, text: Text, style: Style, k: nat)
    requires k < |text| && text[k].code != BREAK && ColOf(text, k) < r.w && RowOf(text, k) < r.h
    ensures var c := TextAt(r, text, style, Pos(r.x + ColOf(text, k), r.y + RowOf(text, k)));
      c.Some? && c.value.style == style && Drawn(text[k].code, c.value.code)
  {
    hide Lines, RowOf, ColOf, TextAt;
    LineHolds(text, k);
    LineShows(r, text, style, RowOf(text, k), ColOf(text, k));
  }

  lemma {:induction false} LineShows(r: Rect, text: Text, style: Style, row: nat, col: nat)
    requires row < |Lines(text)| && col < |Lines(text)[row]| && col < r.w && row < r.h
    ensures var c := TextAt(r, text, style, Pos(r.x + col, r.y + row));
      c.Some? && c.value.style == style && Drawn(Lines(text)[row][col].code, c.value.code)
  {
    hide Lines;
  }

  lemma {:induction false} TextShowsOnly(r: Rect, text: Text, style: Style, p: Pos) returns (k: nat)
    requires TextAt(r, text, style, p).Some?
    ensures k < |text| && text[k].code != BREAK && ColOf(text, k) < r.w && RowOf(text, k) < r.h
    ensures p == Pos(r.x + ColOf(text, k), r.y + RowOf(text, k))
  {
    k := LineRune(text, p.y - r.y, p.x - r.x);
    hide Lines, ColOf, RowOf;
  }

  /** A label shows its text inside its border and padding. */
  lemma {:induction false} LabelShows(node: Node, theme: Theme, r: Rect, k: nat)
    requires node.kind == Label && k < |node.text| && node.text[k].code != BREAK
    requires var edge := if node.border == NoBorder then 0 else 1;
      && edge + node.padding.left + ColOf(node.text, k) < r.w - edge - node.padding.right
      && edge + node.padding.top + RowOf(node.text, k) < r.h - edge - node.padding.bottom
    ensures var edge := if node.border == NoBorder then 0 else 1;
      var p := Pos(r.x + edge + node.padding.left + ColOf(node.text, k), r.y + edge + node.padding.top + RowOf(node.text, k));
      var c := Shown(node, theme, r, p);
      c.Some? && c.value.style == ResolveStyle(node.style, theme) && Drawn(node.text[k].code, c.value.code)
  {
    InnerSides(node, r);
    var inner := Inner(node, r);
    hide TextAt, ColOf, RowOf, ResolveStyle, Drawn, Inner;
    TextShows(inner, node.text, ResolveStyle(node.style, theme), k);
    hide BorderAt;
  }

  /** A button shows its text between "[ " and " ]". */
  lemma ButtonShows(node: Node, theme: Theme, r: Rect, p: Pos)
    requires node.kind == Button && !Empty(r) && !Empty(Inner(node, r))
    ensures ContentAt(node, theme, Inner(node, r), p) == TextAt(Inner(node, r), ButtonText(node.text), ResolveStyle(node.style, theme), p)
    ensures var t, b, n := node.text, ButtonText(node.text), |node.text|;
      && |b| == n + 4 && b[0].code == '[' as nat && b[1].code == ' ' as nat && b[n + 2].code == ' ' as nat && b[n + 3].code == ']' as nat
      && forall k :: 0 <= k < n ==> b[k + 2] == t[k]
  {
    hide TextAt, Inner, ResolveStyle;
  }

  // ----- intrinsic sizes

  lemma {:induction false} NewlinesAre(t: Text, u: Text)
    ensures RowOf(t + u, |t|) + Newlines(u) == RowOf(t + u, |t + u|)
    decreases |u|
  {
    if u == [] {
      assert t + u == t;
    } else {
      assert t + u == (t + [u[0]]) + u[1..];
      assert (t + u)[|t|] == u[0];
      NewlinesAre(t + [u[0]], u[1..]);
    }
  }

  lemma TextRows(t: Text)
    ensures Newlines(t) == RowOf(t, |t|)
  {
    NewlinesAre([], t);
    assert [] + t == t;
  }

  lemma {:induction false} RowsGrow(t: Text, j: nat, k: nat)
    requires j <= k <= |t|
    ensures RowOf(t, j) <= RowOf(t, k)
    decreases k
  {
    if j < k {
      RowsGrow(t, j, k - 1);
    }
  }

  lemma {:induction false} LongestHolds(lines: seq<Text>, i: nat)
    requires i < |lines|
    ensures |lines[i]| <= Longest(lines)
    decreases |lines|
  {
    if i > 0 {
      LongestHolds(lines[1..], i - 1);
    }
  }

  lemma {:induction false} LongestReached(lines: seq<Text>) returns (i: nat)
    requires Longest(lines) > 0
    ensures i < |lines| && |lines[i]| == Longest(lines)
    decreases |lines|
  {
    if |lines[0]| == Longest(lines) {
      i := 0;
    } else {
      var j := LongestReached(lines[1..]);
      i := j + 1;
    }
  }

  /** A label asks for exactly the room of its text: a row for each line, and columns up to the last rune of the widest. */
  lemma {:induction false} LabelFits(node: Node, k: nat)
    requires node.kind == Label
    ensures Intrinsic(node, Column) == 1 + RowOf(node.text, |node.text|)
    ensures k < |node.text| && node.text[k].code != BREAK ==>
      ColOf(node.text, k) < Intrinsic(node, Row) && RowOf(node.text, k) < Intrinsic(node, Column)
  {
    var t := node.text;
    TextRows(t);
    hide Lines, Newlines, RowOf, ColOf, Longest;
    if k < |t| && t[k].code != BREAK {
      LineHolds(t, k);
      LongestHolds(Lines(t), RowOf(t, k));
      RowsGrow(t, k, |t|);
    }
  }

  lemma LabelTight(node: Node) returns (k: nat)
    requires node.kind == Label && Intrinsic(node, Row) > 1
    ensures k < |node.text| && node.text[k].code != BREAK && ColOf(node.text, k) == Intrinsic(node, Row) - 1
  {
    var lines := Lines(node.text);
    var i := LongestReached(lines);
    k := LineRune(node.text, i, |lines[i]| - 1);
  }

  /** A button asks for four columns more than its text has bytes, a canvas for its own size, a container for one cell. */
  lemma {:induction false} OthersAskFor(node: Node)
    ensures node.kind == Button ==> Intrinsic(node, Row) == Length(node.text) + 4 && Intrinsic(node, Column) == 1 + RowOf(node.text, |node.text|)
    ensures node.kind == Canvas ==>
      && Intrinsic(node, Row) == (if node.width >= 1 then node.width else 1)
      && Intrinsic(node, Column) == (if node.height >= 1 then node.height else 1)
    ensures node.kind == Container ==> Intrinsic(node, Row) == 1 && Intrinsic(node, Column) == 1
  {
    TextRows(node.text);
    hide Length, Newlines, RowOf, Lines, Longest;
  }

  // ----- borders and canvases

  /** A border: four corners, level strokes between them above and below, upright ones left and right, nothing inside. */
  lemma BorderPicture(r: Rect, border: Border, style: Style, i: nat, j: nat)
    requires border != NoBorder && r.w >= 2 && r.h >= 2 && i < r.w && j < r.h
    ensures var c := BorderAt(r, border, style, Pos(r.x + i, r.y + j));
      var level, upright := j == 0 || j == r.h - 1, i == 0 || i == r.w - 1;
      && (c.Some? <==> level || upright) && (c.Some? ==> c.value.style == style)
      && (level && !upright ==> c.value.code == 0x2500) && (upright && !level ==> c.value.code == 0x2502)
      && (level && upright && border == Single ==> c.value.code == '+' as nat)
      && (level && upright && border == Rounded ==>
            c.value.code == (if j == 0 then (if i == 0 then 0x256D else 0x256E) else if i == 0 then 0x2570 else 0x256F))
  {}

  /** The printable runes a canvas may draw. */
  predicate Printable(code: nat) {
    0x20 <= code <= 0x7E || code >= 0xA0
  }

  /** A call that asks for this rune in this style in column `x` of row `y` of the surface. */
  ghost predicate Covers(d: Draw, x: int, y: int, code: nat, style: Style) {
    match d
    case SetCell(dx, dy, c, st) => x == dx && y == dy && c == code && st == style
    case SetText(dx, dy, t, st) => y == dy && st == style && exists k :: 0 <= k < |t| && x == dx + k && t[k].code == code
    case Fill(dx, dy, w, h, c, st) => c == code && st == style && 0 <= x - dx < w && 0 <= y - dy < h
  }

  lemma CallCovers(s: Rect, d: Draw, x: int, y: int, code: nat, style: Style)
    requires 0 <= x < s.w && 0 <= y < s.h
    ensures DrawAt(s, d, Pos(s.x + x, s.y + y)) == Some(Cell(code, style)) <==> Covers(d, x, y, code, style) && Printable(code)
  {
    match d
    case SetCell(_, _, _, _) =>
    case SetText(dx, dy, t, _) =>
      if y == dy && 0 <= x - dx < |t| {
        assert x == dx + (x - dx);
      }
    case Fill(_, _, _, _, _, _) =>
  }

  /** The last call that paints a cell decides it. */
  lemma {:induction false} LastCallWins(s: Rect, ds: seq<Draw>, n: nat, p: Pos)
    requires n <= |ds|
    ensures DrawnAt(s, ds, n, p).None? ==> forall k :: 0 <= k < n ==> DrawAt(s, ds[k], p).None?
    ensures DrawnAt(s, ds, n, p).Some? ==> exists k :: 0 <= k < n && DecidedBy(s, ds, n, p, k)
    decreases n
  {
    hide DrawAt;
    if n > 0 {
      LastCallWins(s, ds, n - 1, p);
      if DrawAt(s, ds[n - 1], p).Some? {
        assert DecidedBy(s, ds, n, p, n - 1);
      } else if DrawnAt(s, ds, n - 1, p).Some? {
        var k :| 0 <= k < n - 1 && DecidedBy(s, ds, n - 1, p, k);
        assert DecidedBy(s, ds, n, p, k);
      }
    }
  }

  /** Call `k` paints the cell and no later one does. */
  ghost predicate DecidedBy(s: Rect, ds: seq<Draw>, n: nat, p: Pos, k: nat)
    requires n <= |ds|
  {
    k < n && DrawnAt(s, ds, n, p).Some? && DrawAt(s, ds[k], p) == DrawnAt(s, ds, n, p) && forall l :: k < l < n ==> DrawAt(s, ds[l], p).None?
  }

  predicate InSpan(i: int, a: int, n: int) {
    a <= i < a + n
  }

  /** The number of columns, or rows, of [a, a + n) that lie in [0, limit). */
  lemma {:induction false} ClippedCounts(a: int, n: int, limit: nat)
    ensures Clipped(a, n, limit) == |set i: int | 0 <= i < limit && InSpan(i, a, n)|
    decreases limit
  {
    var s := set i: int | 0 <= i < limit && InSpan(i, a, n);
    if limit == 0 {
      assert s == {};
    } else {
      ClippedCounts(a, n, limit - 1);
      var t := set i: int | 0 <= i < limit - 1 && InSpan(i, a, n);
      assert s == if a <= limit - 1 < a + n then t + {limit - 1} else t;
    }
  }

  /** The number of runes that fall on the surface and may be drawn. */
  lemma {:induction false} VisibleCounts(text: Text, x: int, w: int, k: nat)
    requires k <= |text|
    ensures Visible(text, x, w, k) == |set i: int | 0 <= i < k && 0 <= x + i < w && Printable(text[i].code)|
    decreases k
  {
    var s := set i: int | 0 <= i < k && 0 <= x + i < w && Printable(text[i].code);
    if k == 0 {
      assert s == {};
    } else {
      VisibleCounts(text, x, w, k - 1);
      var t := set i: int | 0 <= i < k - 1 && 0 <= x + i < w && Printable(text[i].code);
      assert s == if 0 <= x + k - 1 < w && Printable(text[k - 1].code) then t + {k - 1} else t;
    }
  }

  /** Explicit colours win over the theme's role, which wins over nothing; decorations add up. */
  lemma StyleResolved(style: Style, theme: Theme)
    ensures var role := if style.role in theme then theme[style.role] else if "default" in theme then theme["default"] else PLAIN;
      var r := ResolveStyle(style, theme);
      && (style.hasFg ==> r.hasFg && r.fg == style.fg) && (!style.hasFg && role.hasFg ==> r.hasFg && r.fg == role.fg)
      && (style.hasBg ==> r.hasBg && r.bg == style.bg) && (!style.hasBg && role.hasBg ==> r.hasBg && r.bg == role.bg)
      && (r.hasFg <==> style.hasFg || role.hasFg) && (r.hasBg <==> style.hasBg || role.hasBg)
      && (forall d :: d in r.decorations <==> d in style.decorations || d in role.decorations)
  {}

  // ----- down the tree

  /** Following `path` from a node drawn into `r`, through containers with room inside, leads to `leaf` drawn into `place`. */
  ghost predicate Leads(node: Node, r: Rect, path: seq<nat>, leaf: Node, place: Rect)
    decreases |path|
  {
    if path == [] then leaf == node && place == r
    else
      && node.kind == Container && !Empty(r) && !Empty(Inner(node, r))
      && path[0] < |node.children| && node.children[path[0]].Some?
      && Leads(node.children[path[0]].value, ChildRect(node, Inner(node, r), path[0]), path[1..], leaf, place)
  }

  lemma {:induction false} ChildHitsHold(node: Node, r: Rect, c: nat, k: nat, h: Hit)
    requires c < k <= |node.children| && node.children[c].Some? && h in Hits(node.children[c].value, ChildRect(node, r, c))
    ensures h in ChildHits(node, r, k)
    decreases k
  {
    hide Hits, ChildRect;
    if c < k - 1 {
      ChildHitsHold(node, r, c, k - 1, h);
    }
  }

  /** Every button with room on the way is recorded, with its own rectangle. */
  lemma {:induction false} ButtonsRecorded(node: Node, r: Rect, path: seq<nat>, leaf: Node, place: Rect)
    requires Leads(node, r, path, leaf, place) && leaf.kind == Button && !Empty(place)
    ensures Hit(place, leaf) in Hits(node, r)
    decreases |path|
  {
    if path == [] {
      assert Hits(node, r) == [Hit(r, node)];
    } else {
      var c, inner := path[0], Inner(node, r);
      ButtonsRecorded(node.children[c].value, ChildRect(node, inner, c), path[1..], leaf, place);
      ChildHitsHold(node, inner, c, |node.children|, Hit(place, leaf));
      hide ChildHits, ChildRect;
      assert Hits(node, r) == ChildHits(node, inner, |node.children|);
    }
  }

  lemma {:induction false} LeadsInside(node: Node, r: Rect, path: seq<nat>, leaf: Node, place: Rect)
    requires Leads(node, r, path, leaf, place)
    ensures Within(place, r)
    decreases |path|
  {
    if path != [] {
      var inner := Inner(node, r);
      InnerInside(node, r);
      ChildInside(node, inner, path[0]);
      LeadsInside(node.children[path[0]].value, ChildRect(node, inner, path[0]), path[1..], leaf, place);
      hide ChildRect, Inner, Leads;
    }
  }

  lemma NoBorderInside(node: Node, r: Rect, style: Style, p: Pos)
    requires !Empty(r) && Has(Inner(node, r), p)
    ensures BorderAt(r, node.border, style, p) == None
  {}

  /** In its own place a node shows through all containers above it: nothing else paints there. */
  lemma {:induction false} LeafShows(node: Node, theme: Theme, r: Rect, path: seq<nat>, leaf: Node, place: Rect, p: Pos)
    requires Leads(node, r, path, leaf, place) && Has(place, p)
    ensures Shown(node, theme, r, p) == Shown(leaf, theme, place, p)
    decreases |path|
  {
    if path != [] {
      var c, inner := path[0], Inner(node, r);
      var child, rect := node.children[c].value, ChildRect(node, inner, c);
      LeafShows(child, theme, rect, path[1..], leaf, place, p);
      LeadsInside(child, rect, path[1..], leaf, place);
      ChildInside(node, inner, c);
      hide ChildRect, Leads;
      ChildShowsThrough(node, theme, inner, c, |node.children|, p);
      NoBorderInside(node, r, ResolveStyle(node.style, theme), p);
      hide BorderAt, Inner, ResolveStyle;
      assert ContentAt(node, theme, inner, p) == ChildrenAt(node, theme, inner, |node.children|, p);
    }
  }

  /** So what the pointer is on is what is shown there: no other region holds the point. */
  lemma {:induction false} PointerIsOnButton(node: Node, r: Rect, path: seq<nat>, leaf: Node, place: Rect, p: Pos, i: nat)
    requires Leads(node, r, path, leaf, place) && leaf.kind == Button && Has(place, p)
    requires i < |Hits(node, r)| && Has(Hits(node, r)[i].rect, p)
    ensures Hits(node, r)[i] == Hit(place, leaf)
  {
    ButtonsRecorded(node, r, path, leaf, place);
    hide Leads, Hits;
    var j :| 0 <= j < |Hits(node, r)| && Hits(node, r)[j] == Hit(place, leaf);
    AtMostOneButton(node, r, p, i, j);
  }
}
