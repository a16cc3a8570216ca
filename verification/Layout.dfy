/**
 Layout and drawing of a declarative node tree into a bounded frame of cells, and the
 hit regions mouse input is routed by.
 */
module Layout {
  import opened Results
  import opened Runes

  // ----- values

  datatype Color = Color(r: nat, g: nat, b: nat)
  datatype Decoration = Bold | Dim | Underline
  datatype Style = Style(role: string, fg: Color, bg: Color, decorations: set<Decoration>, hasFg: bool, hasBg: bool)
  datatype Cell = Cell(code: nat, style: Style)
  type Theme = map<string, Style>

  const PLAIN: Style := Style("", Color(0, 0, 0), Color(0, 0, 0), {}, false, false)
  const BLANK: Cell := Cell(0x20, PLAIN)

  function ResolveStyle(style: Style, theme: Theme): (r: Style) {
    var role := if style.role in theme then theme[style.role] else if "default" in theme then theme["default"] else PLAIN;
    var fore := if !style.hasFg && role.hasFg then style.(fg := role.fg, hasFg := true) else style;
    var back := if !style.hasBg && role.hasBg then fore.(bg := role.bg, hasBg := true) else fore;
    back.(decorations := style.decorations + role.decorations)
  }

  predicate Safe(code: nat) {
    code >= 0x20 && code != 0x7f && !(0x80 <= code <= 0x9f)
  }

  function Clean(code: nat): (r: nat)
    ensures Safe(r)
  {
    if Safe(code) then code else 0xfffd
  }

  datatype Pos = Pos(x: int, y: int)
  datatype Rect = Rect(x: int, y: int, w: int, h: int)

  predicate Empty(r: Rect) {
    r.w <= 0 || r.h <= 0
  }

  predicate Has(r: Rect, p: Pos) {
    r.x <= p.x < r.x + r.w && r.y <= p.y < r.y + r.h
  }

  /** `a` lies in `b`, or covers nothing. */
  predicate Within(a: Rect, b: Rect) {
    Empty(a) || (b.x <= a.x && a.x + a.w <= b.x + b.w && b.y <= a.y && a.y + a.h <= b.y + b.h)
  }

  ghost predicate Apart(a: Rect, b: Rect) {
    forall p :: !(Has(a, p) && Has(b, p))
  }

  // ----- nodes; the builders clamp gaps, padding and canvas sizes to be non-negative

  datatype Kind = Container | Label | Button | Canvas
  datatype Direction = Column | Row
  datatype Alignment = Start | Center | End | Stretch
  datatype Border = NoBorder | Single | Rounded
  datatype Padding = Padding(top: nat, right: nat, bottom: nat, left: nat)

  /** One call a canvas callback makes on its surface. */
  datatype Draw =
    | SetCell(x: int, y: int, code: nat, style: Style)
    | SetText(x: int, y: int, text: Text, style: Style)
    | Fill(x: int, y: int, w: int, h: int, code: nat, style: Style)

  datatype Node = Node(
    kind: Kind, children: seq<Option<Node>>, text: Text, event: string, key: string, style: Style,
    direction: Direction, fill: bool, gap: nat, align: Alignment, justify: Alignment,
    padding: Padding, border: Border, width: nat, height: nat, draw: seq<Draw>)

  function Max(a: int, b: int): (r: int) {
    if a > b then a else b
  }

  function Min(a: int, b: int): (r: int) {
    if a < b then a else b
  }

  // ----- text

  const NEWLINE: nat := 10

  /** The index of the first newline, or the length. */
  function LineEnd(t: Text): (n: nat)
    ensures n <= |t|
    ensures forall k :: 0 <= k < n ==> t[k].code != NEWLINE
    ensures n < |t| ==> t[n].code == NEWLINE
  {
    if t == [] || t[0].code == NEWLINE then 0 else 1 + LineEnd(t[1..])
  }

  /** The text after its first line. */
  function NextLine(t: Text): (r: Text)
    requires t != []
    ensures |r| < |t|
  {
    if LineEnd(t) < |t| then t[LineEnd(t) + 1..] else []
  }

  function Lines(t: Text): (r: seq<Text>)
    decreases |t|
  {
    if t == [] then [] else [t[..LineEnd(t)]] + Lines(NextLine(t))
  }

  function Longest(lines: seq<Text>): (n: nat) {
    if lines == [] then 0 else Max(|lines[0]|, Longest(lines[1..]))
  }

  function Newlines(t: Text): (n: nat) {
    if t == [] then 0 else (if t[0].code == NEWLINE then 1 else 0) + Newlines(t[1..])
  }

  // ----- layout

  /** The size a node asks for along a direction. */
  function Intrinsic(node: Node, direction: Direction): (n: int)
    ensures n >= 1
  {
    if direction == Column then
      match node.kind
      case Label => Max(1, Newlines(node.text) + 1)
      case Button => Max(1, Newlines(node.text) + 1)
      case Canvas => Max(1, node.height)
      case Container => 1
    else
      match node.kind
      case Label => Max(1, Longest(Lines(node.text)))
      case Button => Max(3, Length(node.text) + 4)
      case Canvas => Max(1, node.width)
      case Container => 1
  }

  function Cross(direction: Direction): (d: Direction) {
    if direction == Column then Row else Column
  }

  function MainSize(node: Node, r: Rect): (n: int) {
    if node.direction == Column then r.h else r.w
  }

  function CrossLimit(node: Node, r: Rect): (n: int) {
    if node.direction == Column then r.w else r.h
  }

  /** How many of the first `k` children are present, fill, and what the others measure. */
  function Present(node: Node, k: nat): (n: nat)
    requires k <= |node.children|
  {
    if k == 0 then 0 else Present(node, k - 1) + if node.children[k - 1].Some? then 1 else 0
  }

  function Filling(node: Node, k: nat): (n: nat)
    requires k <= |node.children|
  {
    if k == 0 then 0 else Filling(node, k - 1) + if node.children[k - 1].Some? && node.children[k - 1].value.fill then 1 else 0
  }

  function Fixed(node: Node, k: nat): (n: nat)
    requires k <= |node.children|
  {
    if k == 0 then 0
    else Fixed(node, k - 1) + if node.children[k - 1].Some? && !node.children[k - 1].value.fill
                              then Intrinsic(node.children[k - 1].value, node.direction) else 0
  }

  function Gaps(node: Node): (n: int) {
    Max(0, Present(node, |node.children|) - 1) * node.gap
  }

  function FillSize(node: Node, main: int): (n: int)
    ensures n >= 0
  {
    var fills := Filling(node, |node.children|);
    if fills > 0 then Max(0, Max(0, main - Gaps(node)) - Fixed(node, |node.children|)) / fills else 0
  }

  function ContentSize(node: Node, main: int): (n: int) {
    Gaps(node) + Fixed(node, |node.children|) + Filling(node, |node.children|) * FillSize(node, main)
  }

  function StartPosition(node: Node, main: int): (n: int)
    ensures n >= 0
  {
    var free := Max(0, main - ContentSize(node, main));
    match node.justify
    case Center => free / 2
    case End => free
    case _ => 0
  }

  /** Where child `k` begins along the main axis. */
  function Position(node: Node, main: int, k: nat): (n: int)
    requires k <= |node.children|
    ensures n >= 0
    decreases k, 0
  {
    if k == 0 then StartPosition(node, main)
    else if node.children[k - 1].None? then Position(node, main, k - 1)
    else Position(node, main, k - 1) + Extent(node, main, k - 1) + node.gap
  }

  /** How far child `k` reaches along the main axis; the last one, if it fills, takes the rest. */
  function Extent(node: Node, main: int, k: nat): (n: int)
    requires k < |node.children| && node.children[k].Some?
    ensures n >= 0 && (n > 0 ==> Position(node, main, k) + n <= main)
    decreases k, 1
  {
    var position := Position(node, main, k);
    var child := node.children[k].value;
    var wanted :=
      if !child.fill then Intrinsic(child, node.direction)
      else if Present(node, k + 1) == Present(node, |node.children|) then Max(0, main - position)
      else FillSize(node, main);
    Min(wanted, Max(0, main - position))
  }

  function CrossSize(node: Node, child: Node, limit: int): (n: int) {
    if node.align == Stretch then limit else Min(Intrinsic(child, Cross(node.direction)), limit)
  }

  function CrossPosition(node: Node, child: Node, limit: int): (n: int) {
    var free := Max(0, limit - CrossSize(node, child, limit));
    match node.align
    case Center => free / 2
    case End => free
    case _ => 0
  }

  function ChildRect(node: Node, r: Rect, k: nat): (c: Rect)
    requires k < |node.children| && node.children[k].Some?
  {
    var main, limit, child := MainSize(node, r), CrossLimit(node, r), node.children[k].value;
    var position, extent := Position(node, main, k), Extent(node, main, k);
    var across, size := CrossPosition(node, child, limit), CrossSize(node, child, limit);
    if node.direction == Column then Rect(r.x + across, r.y + position, size, extent)
    else Rect(r.x + position, r.y + across, extent, size)
  }

  /** What a border and padding leave of a rectangle; a step that leaves nothing ends there. */
  function Framed(node: Node, r: Rect): (c: Rect) {
    if node.border == NoBorder then r else Rect(r.x + 1, r.y + 1, r.w - 2, r.h - 2)
  }

  function Inner(node: Node, r: Rect): (c: Rect) {
    var f := Framed(node, r);
    if Empty(f) then f
    else Rect(f.x + node.padding.left, f.y + node.padding.top,
              f.w - (node.padding.left + node.padding.right), f.h - (node.padding.top + node.padding.bottom))
  }

  lemma WithinTrans(a: Rect, b: Rect, c: Rect)
    requires Within(a, b) && Within(b, c) && !Empty(b)
    ensures Within(a, c)
  {}

  /** A child stays in its parent. */
  lemma ChildInside(node: Node, r: Rect, k: nat)
    requires !Empty(r) && k < |node.children| && node.children[k].Some?
    ensures Within(ChildRect(node, r, k), r)
  {
    hide Position, Extent, Intrinsic;
  }

  lemma {:induction false} PositionsAdvance(node: Node, main: int, j: nat, k: nat)
    requires j < k <= |node.children| && node.children[j].Some?
    ensures Position(node, main, j) + Extent(node, main, j) <= Position(node, main, k)
    decreases k
  {
    hide Extent;
    if k > j + 1 {
      PositionsAdvance(node, main, j, k - 1);
    }
  }

  /** Siblings share no cell. */
  lemma SiblingsApart(node: Node, r: Rect, j: nat, k: nat)
    requires j < k < |node.children| && node.children[j].Some? && node.children[k].Some?
    ensures Apart(ChildRect(node, r, j), ChildRect(node, r, k))
  {
    PositionsAdvance(node, MainSize(node, r), j, k);
    hide Position, Extent, CrossPosition, CrossSize;
  }

  lemma {:induction false} CountsGrow(node: Node, j: nat, k: nat)
    requires j <= k <= |node.children|
    ensures Present(node, j) <= Present(node, k) && Fixed(node, j) <= Fixed(node, k) && Filling(node, j) <= Filling(node, k)
    decreases k
  {
    if j < k {
      CountsGrow(node, j, k - 1);
    }
  }

  lemma {:induction false} GapsFit(n: nat, m: nat, gap: nat)
    requires n <= m
    ensures n * gap <= m * gap
    decreases m
  {
    if n < m {
      GapsFit(n, m - 1, gap);
      OneMore(m - 1, gap);
    }
  }

  /**
   When nothing fills and everything fits, every child gets the size it asks for and
   starts where the sizes and gaps before it end.
   */
  lemma {:induction false} NaturalLayout(node: Node, main: int, k: nat)
    requires k <= |node.children| && Filling(node, |node.children|) == 0 && ContentSize(node, main) <= main
    ensures Position(node, main, k) == StartPosition(node, main) + Fixed(node, k) + Present(node, k) * node.gap
    ensures k < |node.children| && node.children[k].Some? ==>
      Extent(node, main, k) == Intrinsic(node.children[k].value, node.direction)
    decreases k
  {
    var n := |node.children|;
    hide Intrinsic;
    if k > 0 {
      NaturalLayout(node, main, k - 1);
      OneMore(Present(node, k - 1), node.gap);
      CountsGrow(node, k, n);
    }
    if k < n && node.children[k].Some? {
      CountsGrow(node, k + 1, n);
      GapsFit(Present(node, k), Present(node, n) - 1, node.gap);
      StartFits(node, main);
    }
  }

  lemma StartFits(node: Node, main: int)
    requires ContentSize(node, main) <= main
    ensures StartPosition(node, main) + ContentSize(node, main) <= main
  {
    hide ContentSize;
  }

  /** So justification puts the leftover in front, behind, or half and half. */
  lemma Justified(node: Node, main: int)
    requires Filling(node, |node.children|) == 0 && Present(node, |node.children|) > 0 && ContentSize(node, main) <= main
    ensures var last := Position(node, main, |node.children|) - node.gap;
      && last - Position(node, main, 0) == ContentSize(node, main)
      && (node.justify == End ==> last == main)
      && (node.justify == Center ==> 0 <= (main - last) - Position(node, main, 0) <= 1)
      && (node.justify == Start || node.justify == Stretch ==> Position(node, main, 0) == 0)
  {
    var n := |node.children|;
    NaturalLayout(node, main, n);
    OneMore(Present(node, n) - 1, node.gap);
    hide Fixed, Present, Filling, FillSize;
    assert Position(node, main, 0) == StartPosition(node, main);
  }

  /** What the fixed sizes and gaps leave is shared out but for less than one cell a filling child. */
  lemma FillsShare(node: Node, main: int)
    requires Filling(node, |node.children|) > 0 && Gaps(node) + Fixed(node, |node.children|) <= main
    ensures ContentSize(node, main) <= main < ContentSize(node, main) + Filling(node, |node.children|)
  {
    hide Fixed, Filling;
    var fills, left := Filling(node, |node.children|), main - Gaps(node) - Fixed(node, |node.children|);
    hide Gaps;
    assert FillSize(node, main) == left / fills;
    assert left == left / fills * fills + left % fills;
  }

  /**
   When the fixed sizes and gaps fit, every child starts where the sizes, shares and gaps
   before it end; a fixed one gets the size it asks for, a filling one an equal share, and
   a filling one that comes last reaches exactly to the end.
   */
  lemma {:induction false} FilledLayout(node: Node, main: int, k: nat)
    requires k < |node.children| && Gaps(node) + Fixed(node, |node.children|) <= main
    requires Present(node, k) < Present(node, |node.children|)
    ensures Position(node, main, k)
         == StartPosition(node, main) + Fixed(node, k) + Filling(node, k) * FillSize(node, main) + Present(node, k) * node.gap
    ensures node.children[k].Some? ==>
      var child, last := node.children[k].value, Present(node, k + 1) == Present(node, |node.children|);
      && (!child.fill ==> Extent(node, main, k) == Intrinsic(child, node.direction))
      && (child.fill && !last ==> Extent(node, main, k) == FillSize(node, main))
      && (child.fill && last ==> Position(node, main, k) + Extent(node, main, k) == main)
    decreases k
  {
    hide Intrinsic, FillSize;
    if k > 0 {
      CountsGrow(node, k - 1, k);
      FilledLayout(node, main, k - 1);
      OneMore(Present(node, k - 1), node.gap);
      OneMore(Filling(node, k - 1), FillSize(node, main));
    }
    if node.children[k].Some? {
      ShareFits(node, main, k);
      hide StartPosition;
    }
  }

  /** The child's size or share ends within the container. */
  lemma ShareFits(node: Node, main: int, k: nat)
    requires k < |node.children| && node.children[k].Some? && Gaps(node) + Fixed(node, |node.children|) <= main
    ensures StartPosition(node, main) + Fixed(node, k + 1) + Filling(node, k + 1) * FillSize(node, main) + Present(node, k) * node.gap <= main
    ensures Filling(node, k + 1) * FillSize(node, main) >= Filling(node, k) * FillSize(node, main)
    ensures node.children[k].value.fill ==> Filling(node, k + 1) * FillSize(node, main) == Filling(node, k) * FillSize(node, main) + FillSize(node, main)
  {
    var n := |node.children|;
    CountsGrow(node, k + 1, n);
    OneMore(Filling(node, k), FillSize(node, main));
    GapsFit(Present(node, k), Present(node, n) - 1, node.gap);
    GapsFit(Filling(node, k + 1), Filling(node, n), FillSize(node, main));
    if Filling(node, n) > 0 {
      FillsShare(node, main);
    }
    hide Intrinsic, FillSize;
    StartFits(node, main);
    hide StartPosition;
  }

  lemma InnerInside(node: Node, r: Rect)
    ensures Within(Inner(node, r), r)
  {}

  // ----- hit regions

  datatype Hit = Hit(rect: Rect, node: Node)

  /** The regions a node records, in drawing order. */
  function Hits(node: Node, r: Rect): (hs: seq<Hit>)
    decreases node, |node.children| + 1
  {
    if Empty(r) then []
    else if node.kind == Button then [Hit(r, node)]
    else if node.kind == Container && !Empty(Inner(node, r)) then ChildHits(node, Inner(node, r), |node.children|)
    else []
  }

  function ChildHits(node: Node, r: Rect, k: nat): (hs: seq<Hit>)
    requires k <= |node.children|
    decreases node, k
  {
    if k == 0 then []
    else ChildHits(node, r, k - 1)
         + if node.children[k - 1].Some? then Hits(node.children[k - 1].value, ChildRect(node, r, k - 1)) else []
  }

  ghost predicate AllWithin(hs: seq<Hit>, r: Rect) {
    forall i :: 0 <= i < |hs| ==> Within(hs[i].rect, r) && hs[i].node.kind == Button
  }

  ghost predicate PairwiseApart(hs: seq<Hit>) {
    forall i, j :: 0 <= i < j < |hs| ==> Apart(hs[i].rect, hs[j].rect)
  }

  /** A node records only buttons, only inside its own rectangle. */
  lemma {:induction false} HitsInside(node: Node, r: Rect)
    ensures AllWithin(Hits(node, r), r)
    decreases node, |node.children| + 1
  {
    hide ChildRect;
    var inner := Inner(node, r);
    InnerInside(node, r);
    hide Inner;
    if !Empty(r) && node.kind == Container && !Empty(inner) {
      ChildHitsInside(node, inner, |node.children|);
    }
  }

  lemma {:induction false} ChildHitsInside(node: Node, r: Rect, k: nat)
    requires k <= |node.children| && !Empty(r)
    ensures AllWithin(ChildHits(node, r, k), r)
    decreases node, k
  {
    hide ChildRect;
    if k > 0 {
      ChildHitsInside(node, r, k - 1);
      if node.children[k - 1].Some? {
        HitsInside(node.children[k - 1].value, ChildRect(node, r, k - 1));
        ChildInside(node, r, k - 1);
      }
    }
  }

  /** Each region recorded for the first `k` children belongs to one of them. */
  ghost predicate Owned(node: Node, r: Rect, k: nat, hs: seq<Hit>)
    requires k <= |node.children|
  {
    forall i :: 0 <= i < |hs| ==> HasOwner(node, r, k, hs[i])
  }

  ghost predicate HasOwner(node: Node, r: Rect, k: nat, h: Hit)
    requires k <= |node.children|
  {
    exists c :: OwnedBy(node, r, k, c, h)
  }

  ghost predicate OwnedBy(node: Node, r: Rect, k: nat, c: int, h: Hit)
    requires k <= |node.children|
  {
    0 <= c < k && node.children[c].Some? && Within(h.rect, ChildRect(node, r, c))
  }

  lemma {:induction false} ChildHitsOwned(node: Node, r: Rect, k: nat)
    requires k <= |node.children|
    ensures Owned(node, r, k, ChildHits(node, r, k))
    decreases k
  {
    hide ChildRect;
    if k > 0 {
      ChildHitsOwned(node, r, k - 1);
      var before, all := ChildHits(node, r, k - 1), ChildHits(node, r, k);
      if node.children[k - 1].Some? {
        HitsInside(node.children[k - 1].value, ChildRect(node, r, k - 1));
      }
      forall i | 0 <= i < |all| ensures HasOwner(node, r, k, all[i]) {
        if i < |before| {
          assert HasOwner(node, r, k - 1, before[i]);
          var c :| OwnedBy(node, r, k - 1, c, before[i]);
          assert OwnedBy(node, r, k, c, all[i]);
        } else {
          assert OwnedBy(node, r, k, k - 1, all[i]);
        }
      }
    }
  }

  lemma ApartInside(a: Rect, outerA: Rect, b: Rect, outerB: Rect)
    requires Within(a, outerA) && Within(b, outerB) && Apart(outerA, outerB)
    ensures Apart(a, b)
  {
    forall p ensures !(Has(a, p) && Has(b, p)) {
      assert !(Has(outerA, p) && Has(outerB, p));
    }
  }

  /** No two regions of one rendering share a point. */
  lemma {:induction false} HitsApart(node: Node, r: Rect)
    ensures PairwiseApart(Hits(node, r))
    decreases node, |node.children| + 1
  {
    hide ChildRect, Inner;
    if !Empty(r) && node.kind == Container && !Empty(Inner(node, r)) {
      ChildHitsApart(node, Inner(node, r), |node.children|);
    }
  }

  lemma {:induction false} ChildHitsApart(node: Node, r: Rect, k: nat)
    requires k <= |node.children| && !Empty(r)
    ensures PairwiseApart(ChildHits(node, r, k))
    decreases node, k
  {
    hide ChildRect, Within, Apart;
    if k > 0 && node.children[k - 1].Some? {
      ChildHitsApart(node, r, k - 1);
      var before, child, rect := ChildHits(node, r, k - 1), node.children[k - 1].value, ChildRect(node, r, k - 1);
      var own := Hits(child, rect);
      HitsApart(child, rect);
      HitsInside(child, rect);
      ChildHitsOwned(node, r, k - 1);
      forall i, j | 0 <= i < |before| && 0 <= j < |own| ensures Apart(before[i].rect, own[j].rect) {
        assert HasOwner(node, r, k - 1, before[i]);
        var c :| OwnedBy(node, r, k - 1, c, before[i]);
        SiblingsApart(node, r, c, k - 1);
        ApartInside(before[i].rect, ChildRect(node, r, c), own[j].rect, rect);
      }
    } else if k > 0 {
      ChildHitsApart(node, r, k - 1);
    }
  }

  /** So at most one button is under any point. */
  lemma AtMostOneButton(node: Node, r: Rect, p: Pos, i: nat, j: nat)
    requires i < |Hits(node, r)| && j < |Hits(node, r)| && Has(Hits(node, r)[i].rect, p) && Has(Hits(node, r)[j].rect, p)
    ensures i == j
  {
    HitsApart(node, r);
  }

  // ----- what a node paints, cell by cell

  function TextAt(r: Rect, text: Text, style: Style, p: Pos): (c: Option<Cell>) {
    var lines := Lines(text);
    if Has(r, p) && p.y - r.y < |lines| && p.x - r.x < |lines[p.y - r.y]|
    then Some(Cell(Clean(lines[p.y - r.y][p.x - r.x].code), style)) else None
  }

  function BorderAt(r: Rect, border: Border, style: Style, p: Pos): (c: Option<Cell>) {
    var right, bottom := r.x + r.w - 1, r.y + r.h - 1;
    if border == NoBorder || r.w < 2 || r.h < 2 || !Has(r, p) then None
    else if p == Pos(r.x, r.y) then Some(Cell(if border == Rounded then 0x256d else 0x2b, style))
    else if p == Pos(right, r.y) then Some(Cell(if border == Rounded then 0x256e else 0x2b, style))
    else if p == Pos(r.x, bottom) then Some(Cell(if border == Rounded then 0x2570 else 0x2b, style))
    else if p == Pos(right, bottom) then Some(Cell(if border == Rounded then 0x256f else 0x2b, style))
    else if p.y == r.y || p.y == bottom then Some(Cell(0x2500, style))
    else if p.x == r.x || p.x == right then Some(Cell(0x2502, style))
    else None
  }

  function Surface(node: Node, r: Rect): (s: Rect) {
    Rect(r.x, r.y, Min(r.w, node.width), Min(r.h, node.height))
  }

  /** What one call on a surface paints: clipped to it, control runes refused. */
  function DrawAt(s: Rect, d: Draw, p: Pos): (c: Option<Cell>) {
    var x, y := p.x - s.x, p.y - s.y;
    if !Has(s, p) then None
    else
      match d
      case SetCell(dx, dy, code, style) => if x == dx && y == dy && Safe(code) then Some(Cell(code, style)) else None
      case SetText(dx, dy, text, style) =>
        if y == dy && 0 <= x - dx < |text| && Safe(text[x - dx].code) then Some(Cell(text[x - dx].code, style)) else None
      case Fill(dx, dy, w, h, code, style) =>
        if dx <= x < dx + w && dy <= y < dy + h && Safe(code) then Some(Cell(code, style)) else None
  }

  function Over<T>(top: Option<T>, below: Option<T>): (c: Option<T>) {
    if top.Some? then top else below
  }

  function DrawnAt(s: Rect, ds: seq<Draw>, k: nat, p: Pos): (c: Option<Cell>)
    requires k <= |ds|
  {
    if k == 0 then None else Over(DrawAt(s, ds[k - 1], p), DrawnAt(s, ds, k - 1, p))
  }

  function ButtonText(text: Text): (t: Text) {
    [Rune(0x5b, 1), Rune(0x20, 1)] + text + [Rune(0x20, 1), Rune(0x5d, 1)]
  }

  /** The cell a node shows at `p` when drawn into `r`, if it paints there at all. */
  function Shown(node: Node, theme: Theme, r: Rect, p: Pos): (c: Option<Cell>)
    decreases node, |node.children| + 2
  {
    if Empty(r) then None
    else Over(ContentAt(node, theme, Inner(node, r), p), BorderAt(r, node.border, ResolveStyle(node.style, theme), p))
  }

  function ContentAt(node: Node, theme: Theme, r: Rect, p: Pos): (c: Option<Cell>)
    decreases node, |node.children| + 1
  {
    var style := ResolveStyle(node.style, theme);
    if Empty(r) then None
    else
      match node.kind
      case Label => TextAt(r, node.text, style, p)
      case Button => TextAt(r, ButtonText(node.text), style, p)
      case Canvas => DrawnAt(Surface(node, r), node.draw, |node.draw|, p)
      case Container => ChildrenAt(node, theme, r, |node.children|, p)
  }

  function ChildrenAt(node: Node, theme: Theme, r: Rect, k: nat, p: Pos): (c: Option<Cell>)
    requires k <= |node.children|
    decreases node, k
  {
    if k == 0 then None
    else
      var before := ChildrenAt(node, theme, r, k - 1, p);
      if node.children[k - 1].None? then before
      else Over(Shown(node.children[k - 1].value, theme, ChildRect(node, r, k - 1), p), before)
  }

  /** A node paints only inside its own rectangle, and never a control rune. */
  lemma {:induction false} PaintsInside(node: Node, theme: Theme, r: Rect, p: Pos)
    ensures Shown(node, theme, r, p).Some? ==> Has(r, p) && Safe(Shown(node, theme, r, p).value.code)
    decreases node, |node.children| + 2
  {
    hide Lines, ResolveStyle, ChildRect;
    var inner := Inner(node, r);
    InnerInside(node, r);
    hide Inner;
    if !Empty(r) && !Empty(inner) {
      match node.kind
      case Label =>
      case Button =>
      case Canvas => DrawsInside(Surface(node, inner), node.draw, |node.draw|, p);
      case Container =>
        ChildrenInside(node, theme, inner, |node.children|, p);
        assert ContentAt(node, theme, inner, p) == ChildrenAt(node, theme, inner, |node.children|, p);
        assert Has(inner, p) ==> Has(r, p);
    }
  }

  lemma {:induction false} DrawsInside(s: Rect, ds: seq<Draw>, k: nat, p: Pos)
    requires k <= |ds|
    ensures DrawnAt(s, ds, k, p).Some? ==> Has(s, p) && Safe(DrawnAt(s, ds, k, p).value.code)
  {
    if k > 0 {
      DrawsInside(s, ds, k - 1, p);
    }
  }

  lemma {:induction false} ChildrenInside(node: Node, theme: Theme, r: Rect, k: nat, p: Pos)
    requires k <= |node.children| && !Empty(r)
    ensures ChildrenAt(node, theme, r, k, p).Some? ==> Has(r, p) && Safe(ChildrenAt(node, theme, r, k, p).value.code)
    decreases node, k
  {
    hide ChildRect;
    if k > 0 {
      ChildrenInside(node, theme, r, k - 1, p);
      if node.children[k - 1].Some? {
        PaintsInside(node.children[k - 1].value, theme, ChildRect(node, r, k - 1), p);
        ChildInside(node, r, k - 1);
      }
    }
  }

  lemma SiblingPaintsElsewhere(node: Node, theme: Theme, r: Rect, c: nat, j: nat, p: Pos)
    requires c < |node.children| && j < |node.children| && c != j && node.children[c].Some? && node.children[j].Some?
    requires Has(ChildRect(node, r, c), p)
    ensures Shown(node.children[j].value, theme, ChildRect(node, r, j), p) == None
  {
    hide Shown, ChildRect;
    PaintsInside(node.children[j].value, theme, ChildRect(node, r, j), p);
    if c < j {
      SiblingsApart(node, r, c, j);
    } else {
      SiblingsApart(node, r, j, c);
    }
  }

  /** No sibling paints over a child: inside its rectangle the parent shows just the child. */
  lemma {:induction false} ChildShowsThrough(node: Node, theme: Theme, r: Rect, c: nat, k: nat, p: Pos)
    requires c < k <= |node.children| && node.children[c].Some? && Has(ChildRect(node, r, c), p)
    ensures ChildrenAt(node, theme, r, k, p) == Shown(node.children[c].value, theme, ChildRect(node, r, c), p)
    decreases k
  {
    hide ChildRect, Has;
    if k == c + 1 {
      NothingBefore(node, theme, r, c, c, p);
    } else {
      ChildShowsThrough(node, theme, r, c, k - 1, p);
      if node.children[k - 1].Some? {
        SiblingPaintsElsewhere(node, theme, r, c, k - 1, p);
      }
    }
  }

  lemma {:induction false} NothingBefore(node: Node, theme: Theme, r: Rect, c: nat, k: nat, p: Pos)
    requires k <= c < |node.children| && node.children[c].Some? && Has(ChildRect(node, r, c), p)
    ensures ChildrenAt(node, theme, r, k, p).None?
    decreases k
  {
    hide ChildRect, Has;
    if k > 0 {
      NothingBefore(node, theme, r, c, k - 1, p);
      if node.children[k - 1].Some? {
        SiblingPaintsElsewhere(node, theme, r, c, k - 1, p);
      }
    }
  }

  // ----- drawing into the frame

  lemma IndexInside(w: nat, h: nat, x: int, y: int)
    requires 0 <= x < w && 0 <= y < h
    ensures 0 <= y * w + x < w * h
  {
    RowsApart(w, y, h);
    GapsFit(0, y, w);
  }

  /** Rows share one buffer without overlapping. */
  lemma IndexInjective(w: nat, x: int, y: int, px: int, py: int)
    requires 0 <= x < w && 0 <= px < w && 0 <= y && 0 <= py && y * w + x == py * w + px
    ensures x == px && y == py
  {
    RowsApart(w, y, py);
    RowsApart(w, py, y);
  }

  lemma RowsApart(w: nat, a: nat, b: nat)
    ensures a < b ==> a * w + w <= b * w
  {
    if a < b {
      GapsFit(a + 1, b, w);
      OneMore(a, w);
    }
  }

  /** A bounded frame over one contiguous buffer, which may be longer than the frame needs. */
  class Frame {
    const width: nat
    const height: nat
    const cells: array<Cell>
    var hits: seq<Hit>

    ghost predicate Valid() {
      cells.Length >= width * height
    }

    function Bounds(): (r: Rect) {
      Rect(0, 0, width, height)
    }

    function At(x: int, y: int): (c: Cell)
      requires Valid() && 0 <= x < width && 0 <= y < height
      reads cells
    {
      IndexInside(width, height, x, y);
      cells[y * width + x]
    }

    method Put(x: int, y: int, c: Cell)
      requires Valid() && 0 <= x < width && 0 <= y < height
      modifies cells
      ensures forall px, py :: 0 <= px < width && 0 <= py < height ==>
        At(px, py) == if px == x && py == y then c else old(At(px, py))
    {
      IndexInside(width, height, x, y);
      cells[y * width + x] := c;
      forall px, py | 0 <= px < width && 0 <= py < height
        ensures At(px, py) == if px == x && py == y then c else old(At(px, py))
      {
        IndexInside(width, height, px, py);
        if py * width + px == y * width + x {
          IndexInjective(width, x, y, px, py);
        }
      }
    }

    constructor (w: nat, h: nat, buffer: array<Cell>)
      requires buffer.Length >= w * h
      ensures Valid() && width == w && height == h && cells == buffer && hits == []
    {
      width, height, cells, hits := w, h, buffer, [];
    }
  }

  function Or(top: Option<Cell>, below: Cell): (c: Cell) {
    if top.Some? then top.value else below
  }

  predicate Corner(r: Rect, p: Pos) {
    (p.x == r.x || p.x == r.x + r.w - 1) && (p.y == r.y || p.y == r.y + r.h - 1)
  }

  method DrawCorners(f: Frame, r: Rect, border: Border, style: Style)
    requires f.Valid() && r.w >= 2 && r.h >= 2 && Within(r, f.Bounds()) && border != NoBorder
    modifies f.cells
    ensures forall x, y :: 0 <= x < f.width && 0 <= y < f.height ==>
      f.At(x, y) == Or(if Corner(r, Pos(x, y)) then BorderAt(r, border, style, Pos(x, y)) else None, old(f.At(x, y)))
  {
    var right, bottom := r.x + r.w - 1, r.y + r.h - 1;
    var rounded := border == Rounded;
    f.Put(r.x, r.y, Cell(if rounded then 0x256d else 0x2b, style));
    f.Put(right, r.y, Cell(if rounded then 0x256e else 0x2b, style));
    f.Put(r.x, bottom, Cell(if rounded then 0x2570 else 0x2b, style));
    f.Put(right, bottom, Cell(if rounded then 0x256f else 0x2b, style));
  }

  method DrawFlat(f: Frame, r: Rect, style: Style)
    requires f.Valid() && r.w >= 2 && r.h >= 2 && Within(r, f.Bounds())
    modifies f.cells
    ensures forall x, y :: 0 <= x < f.width && 0 <= y < f.height ==>
      f.At(x, y) == if (y == r.y || y == r.y + r.h - 1) && r.x < x < r.x + r.w - 1 then Cell(0x2500, style) else old(f.At(x, y))
  {
    for o := 1 to r.w - 1
      invariant forall x, y :: 0 <= x < f.width && 0 <= y < f.height ==>
        f.At(x, y) == if (y == r.y || y == r.y + r.h - 1) && r.x < x < r.x + o then Cell(0x2500, style) else old(f.At(x, y))
    {
      f.Put(r.x + o, r.y, Cell(0x2500, style));
      f.Put(r.x + o, r.y + r.h - 1, Cell(0x2500, style));
    }
  }

  method DrawUpright(f: Frame, r: Rect, style: Style)
    requires f.Valid() && r.w >= 2 && r.h >= 2 && Within(r, f.Bounds())
    modifies f.cells
    ensures forall x, y :: 0 <= x < f.width && 0 <= y < f.height ==>
      f.At(x, y) == if (x == r.x || x == r.x + r.w - 1) && r.y < y < r.y + r.h - 1 then Cell(0x2502, style) else old(f.At(x, y))
  {
    for o := 1 to r.h - 1
      invariant forall x, y :: 0 <= x < f.width && 0 <= y < f.height ==>
        f.At(x, y) == if (x == r.x || x == r.x + r.w - 1) && r.y < y < r.y + o then Cell(0x2502, style) else old(f.At(x, y))
    {
      f.Put(r.x, r.y + o, Cell(0x2502, style));
      f.Put(r.x + r.w - 1, r.y + o, Cell(0x2502, style));
    }
  }

  method DrawBorder(f: Frame, r: Rect, border: Border, style: Style)
    requires f.Valid() && !Empty(r) && Within(r, f.Bounds()) && border != NoBorder
    modifies f.cells
    ensures forall x, y :: 0 <= x < f.width && 0 <= y < f.height ==> f.At(x, y) == Or(BorderAt(r, border, style, Pos(x, y)), old(f.At(x, y)))
  {
    if r.w < 2 || r.h < 2 {
      return;
    }
    DrawCorners(f, r, border, style);
    DrawFlat(f, r, style);
    DrawUpright(f, r, style);
  }

  /** One line of text, cut at the width. */
  method DrawLine(f: Frame, r: Rect, y: nat, line: Text, style: Style)
    requires f.Valid() && !Empty(r) && Within(r, f.Bounds()) && r.y <= y < r.y + r.h
    modifies f.cells
    ensures forall px, py :: 0 <= px < f.width && 0 <= py < f.height ==>
      f.At(px, py) == if py == y && r.x <= px < r.x + r.w && px - r.x < |line|
                         then Cell(Clean(line[px - r.x].code), style) else old(f.At(px, py))
  {
    hide Clean;
    var offset := 0;
    while offset < |line| && offset < r.w
      invariant 0 <= offset <= |line| && offset <= r.w
      invariant forall px, py :: 0 <= px < f.width && 0 <= py < f.height ==>
        f.At(px, py) == if py == y && r.x <= px < r.x + offset
                           then Cell(Clean(line[px - r.x].code), style) else old(f.At(px, py))
    {
      f.Put(r.x + offset, y, Cell(Clean(line[offset].code), style));
      offset := offset + 1;
    }
  }

  method DrawText(f: Frame, r: Rect, text: Text, style: Style)
    requires f.Valid() && !Empty(r) && Within(r, f.Bounds())
    modifies f.cells
    ensures forall x, y :: 0 <= x < f.width && 0 <= y < f.height ==> f.At(x, y) == Or(TextAt(r, text, style, Pos(x, y)), old(f.At(x, y)))
  {
    hide Clean, LineEnd, NextLine;
    var rest, done := text, 0;
    while rest != [] && done < r.h
      invariant 0 <= done <= r.h && done <= |Lines(text)| && Lines(text)[done..] == Lines(rest)
      invariant forall x, y :: 0 <= x < f.width && 0 <= y < f.height ==>
        f.At(x, y) == if y < r.y + done then Or(TextAt(r, text, style, Pos(x, y)), old(f.At(x, y))) else old(f.At(x, y))
      decreases |rest|
    {
      var line := rest[..LineEnd(rest)];
      assert Lines(rest)[0] == line && Lines(text)[done] == line;
      DrawLine(f, r, r.y + done, line, style);
      assert Lines(text)[done + 1..] == Lines(rest)[1..];
      rest := NextLine(rest);
      done := done + 1;
    }
  }

  // ----- the canvas

  /** How many of the first `k` runes, drawn from column `x`, are on a surface and not controls. */
  function Visible(text: Text, x: int, w: int, k: nat): (n: nat)
    requires k <= |text|
  {
    if k == 0 then 0 else Visible(text, x, w, k - 1) + if 0 <= x + k - 1 < w && Safe(text[k - 1].code) then 1 else 0
  }

  lemma {:induction false} NoneVisible(text: Text, x: int, w: int, j: nat, k: nat)
    requires j <= k <= |text| && (j == k || x + k <= 0 || x + j >= w)
    ensures Visible(text, x, w, k) == Visible(text, x, w, j)
    decreases k
  {
    if j < k {
      NoneVisible(text, x, w, j, k - 1);
    }
  }

  /** The length of the part of [a, a + n) that lies in [0, limit). */
  function Clipped(a: int, n: int, limit: int): (r: int) {
    Max(0, Min(limit, a + n) - Max(0, a))
  }

  /** A clipped drawing target; every write goes through `Set`, which does not check the frame. */
  class CanvasSurface {
    const frame: Frame
    const rect: Rect

    ghost predicate Valid() {
      frame.Valid() && (Empty(rect) || Within(rect, frame.Bounds()))
    }

    constructor (frame: Frame, rect: Rect)
      ensures this.frame == frame && this.rect == rect
    {
      this.frame, this.rect := frame, rect;
    }

    method Set(x: int, y: int, code: nat, style: Style) returns (ok: bool)
      requires Valid()
      modifies frame.cells
      ensures ok <==> 0 <= x < rect.w && 0 <= y < rect.h && Safe(code)
      ensures forall px, py :: 0 <= px < frame.width && 0 <= py < frame.height ==>
        frame.At(px, py) == Or(DrawAt(rect, SetCell(x, y, code, style), Pos(px, py)), old(frame.At(px, py)))
    {
      if x < 0 || y < 0 || x >= rect.w || y >= rect.h {
        return false;
      }
      if !Safe(code) {
        return false;
      }
      frame.Put(rect.x + x, rect.y + y, Cell(code, style));
      ok := true;
    }

    /** Clipped text; runes left of the surface are skipped, control runes leave a hole. */
    method SetText(x: int, y: int, text: Text, style: Style) returns (count: nat)
      requires Valid()
      modifies frame.cells
      ensures forall px, py :: 0 <= px < frame.width && 0 <= py < frame.height ==>
        frame.At(px, py) == Or(DrawAt(rect, Draw.SetText(x, y, text, style), Pos(px, py)), old(frame.At(px, py)))
      ensures count == if 0 <= y < rect.h then Visible(text, x, rect.w, |text|) else 0
    {
      count := 0;
      if y < 0 || y >= rect.h || x >= rect.w {
        NoneVisible(text, x, rect.w, if x >= rect.w then 0 else |text|, |text|);
        return;
      }
      if x < 0 && x <= -|text| {
        NoneVisible(text, x, rect.w, 0, |text|);
        return;
      }
      var k := if x < 0 then Min(|text|, -x) else 0;
      NoneVisible(text, x, rect.w, 0, k);
      while k < |text| && x + k < rect.w
        invariant 0 <= k <= |text| && x + k >= 0 && count == Visible(text, x, rect.w, k)
        invariant forall px, py :: 0 <= px < frame.width && 0 <= py < frame.height ==>
          frame.At(px, py) == if px < rect.x + x + k
                                 then Or(DrawAt(rect, Draw.SetText(x, y, text, style), Pos(px, py)), old(frame.At(px, py)))
                                 else old(frame.At(px, py))
      {
        var ok := Set(x + k, y, text[k].code, style);
        if ok {
          count := count + 1;
        }
        k := k + 1;
      }
      NoneVisible(text, x, rect.w, k, |text|);
    }

    method FillRow(row: int, left: int, right: int, code: nat, style: Style) returns (count: nat)
      requires Valid() && 0 <= left && right <= rect.w && 0 <= row < rect.h
      modifies frame.cells
      ensures count == if Safe(code) then Max(0, right - left) else 0
      ensures forall px, py :: 0 <= px < frame.width && 0 <= py < frame.height ==>
        frame.At(px, py) == if py == rect.y + row && rect.x + left <= px < rect.x + right && Safe(code)
                               then Cell(code, style) else old(frame.At(px, py))
    {
      count := 0;
      var column := left;
      while column < right
        invariant left <= column && (column <= right || column == left)
        invariant count == if Safe(code) then column - left else 0
        invariant forall px, py :: 0 <= px < frame.width && 0 <= py < frame.height ==>
          frame.At(px, py) == if py == rect.y + row && rect.x + left <= px < rect.x + column && Safe(code)
                                 then Cell(code, style) else old(frame.At(px, py))
      {
        var ok := Set(column, row, code, style);
        if ok {
          count := count + 1;
        }
        column := column + 1;
      }
    }

    method Fill(x: int, y: int, w: int, h: int, code: nat, style: Style) returns (count: nat)
      requires Valid()
      modifies frame.cells
      ensures forall px, py :: 0 <= px < frame.width && 0 <= py < frame.height ==>
        frame.At(px, py) == Or(DrawAt(rect, Draw.Fill(x, y, w, h, code, style), Pos(px, py)), old(frame.At(px, py)))
      ensures count == if w > 0 && h > 0 && Safe(code) then Clipped(y, h, rect.h) * Clipped(x, w, rect.w) else 0
    {
      count := 0;
      if w <= 0 || h <= 0 {
        return;
      }
      var left, top := Max(0, x), Max(0, y);
      var right, bottom := Min(rect.w, x + w), Min(rect.h, y + h);
      var row := top;
      while row < bottom
        invariant top <= row && (row <= bottom || row == top)
        invariant count == if Safe(code) then (row - top) * Max(0, right - left) else 0
        invariant forall px, py :: 0 <= px < frame.width && 0 <= py < frame.height ==>
          frame.At(px, py) == if py < rect.y + row
                                 then Or(DrawAt(rect, Draw.Fill(x, y, w, h, code, style), Pos(px, py)), old(frame.At(px, py)))
                                 else old(frame.At(px, py))
      {
        var n := FillRow(row, left, right, code, style);
        OneMore(row - top, Max(0, right - left));
        count := count + n;
        row := row + 1;
      }
    }
  }

  method DrawCanvas(f: Frame, node: Node, r: Rect)
    requires f.Valid() && !Empty(r) && Within(r, f.Bounds())
    modifies f.cells
    ensures forall x, y :: 0 <= x < f.width && 0 <= y < f.height ==>
      f.At(x, y) == Or(DrawnAt(Surface(node, r), node.draw, |node.draw|, Pos(x, y)), old(f.At(x, y)))
  {
    hide DrawAt;
    var surface := new CanvasSurface(f, Surface(node, r));
    for k := 0 to |node.draw|
      invariant forall x, y :: 0 <= x < f.width && 0 <= y < f.height ==>
        f.At(x, y) == Or(DrawnAt(Surface(node, r), node.draw, k, Pos(x, y)), old(f.At(x, y)))
    {
      match node.draw[k]
      case SetCell(x, y, code, style) => var _ := surface.Set(x, y, code, style);
      case SetText(x, y, text, style) => var _ := surface.SetText(x, y, text, style);
      case Fill(x, y, w, h, code, style) => var _ := surface.Fill(x, y, w, h, code, style);
    }
  }

  // ----- the renderer

  /** Draws a node: exactly the cells and the regions it owns, and no others. */
  method RenderNode(f: Frame, node: Node, r: Rect, theme: Theme)
    requires f.Valid() && Within(r, f.Bounds())
    modifies f, f.cells
    ensures forall x, y :: 0 <= x < f.width && 0 <= y < f.height ==>
      f.At(x, y) == Or(Shown(node, theme, r, Pos(x, y)), old(f.At(x, y)))
    ensures f.hits == old(f.hits) + Hits(node, r)
    decreases node, |node.children| + 1
  {
    hide ResolveStyle, TextAt, BorderAt, DrawnAt, ChildRect, Surface;
    if Empty(r) {
      return;
    }
    var style := ResolveStyle(node.style, theme);
    if node.kind == Button {
      f.hits := f.hits + [Hit(r, node)];
    }
    if node.border != NoBorder {
      DrawBorder(f, r, node.border, style);
    }
    NoBorderPaintsNothing(r, style);
    var inner := Inner(node, r);
    InnerInside(node, r);
    hide Inner;
    if Empty(inner) {
      return;
    }
    label bordered:
    match node.kind
    case Label => DrawText(f, inner, node.text, style);
    case Button => DrawText(f, inner, ButtonText(node.text), style);
    case Canvas => DrawCanvas(f, node, inner);
    case Container => RenderChildren(f, node, inner, theme);
    assert forall x, y :: 0 <= x < f.width && 0 <= y < f.height ==>
      f.At(x, y) == Or(ContentAt(node, theme, inner, Pos(x, y)), old@bordered(f.At(x, y)));
  }

  lemma NoBorderPaintsNothing(r: Rect, style: Style)
    ensures forall p :: BorderAt(r, NoBorder, style, p) == None
  {}

  method CountChildren(node: Node) returns (count: nat)
    ensures count == Present(node, |node.children|)
  {
    count := 0;
    for k := 0 to |node.children|
      invariant count == Present(node, k)
    {
      if node.children[k].Some? {
        count := count + 1;
      }
    }
  }

  /** Each present child has its measure at its place in the list. */
  ghost predicate Measured(node: Node, k: nat, intrinsic: seq<int>)
    requires k <= |node.children|
  {
    && |intrinsic| == Present(node, k)
    && forall j :: 0 <= j < k && node.children[j].Some? ==>
         Present(node, j) < |intrinsic| && intrinsic[Present(node, j)] == Intrinsic(node.children[j].value, node.direction)
  }

  method MeasureChildren(node: Node) returns (intrinsic: seq<int>, fills: nat, fixed: nat)
    ensures Measured(node, |node.children|, intrinsic)
    ensures fills == Filling(node, |node.children|) && fixed == Fixed(node, |node.children|)
  {
    hide Intrinsic;
    intrinsic, fills, fixed := [], 0, 0;
    for k := 0 to |node.children|
      invariant Measured(node, k, intrinsic) && fills == Filling(node, k) && fixed == Fixed(node, k)
    {
      if node.children[k].Some? {
        var measured := Intrinsic(node.children[k].value, node.direction);
        intrinsic := intrinsic + [measured];
        if node.children[k].value.fill {
          fills := fills + 1;
        } else {
          fixed := fixed + measured;
        }
      }
    }
  }

  method SumContent(node: Node, intrinsic: seq<int>, gaps: int, fillSize: int) returns (content: int)
    requires Measured(node, |node.children|, intrinsic)
    ensures content == gaps + Fixed(node, |node.children|) + Filling(node, |node.children|) * fillSize
  {
    hide Intrinsic;
    content := gaps;
    for k := 0 to |node.children|
      invariant content == gaps + Fixed(node, k) + Filling(node, k) * fillSize
    {
      if node.children[k].Some? {
        OneMore(Filling(node, k), fillSize);
        content := content + if node.children[k].value.fill then fillSize else intrinsic[Present(node, k)];
      }
    }
  }

  lemma OneMore(n: int, x: int)
    ensures (n + 1) * x == n * x + x
  {}

  /** The measuring passes: intrinsic sizes, the size of a fill, and where the first child goes. */
  method Measure(node: Node, main: int, count: nat) returns (intrinsic: seq<int>, fillSize: int, start: int)
    requires count == Present(node, |node.children|) > 0
    ensures Measured(node, |node.children|, intrinsic)
    ensures fillSize == FillSize(node, main) && start == StartPosition(node, main)
  {
    hide Measured, Present, Filling, Fixed;
    var fills, fixed;
    intrinsic, fills, fixed := MeasureChildren(node);
    var gaps := Max(0, count - 1) * node.gap;
    var remaining := Max(0, main - gaps) - fixed;
    fillSize := if fills > 0 then Max(0, remaining) / fills else 0;
    var content := SumContent(node, intrinsic, gaps, fillSize);
    var free := Max(0, main - content);
    start := match node.justify case Center => free / 2 case End => free case _ => 0;
  }

  /** The rectangle and extent of child `k`, from what the passes measured. */
  method PlaceChild(node: Node, r: Rect, k: nat, position: int, measured: int, last: bool, fillSize: int) returns (rect: Rect, size: int)
    requires k < |node.children| && node.children[k].Some? && position == Position(node, MainSize(node, r), k)
    requires measured == Intrinsic(node.children[k].value, node.direction) && fillSize == FillSize(node, MainSize(node, r))
    requires last <==> Present(node, k + 1) == Present(node, |node.children|)
    ensures rect == ChildRect(node, r, k) && size == Extent(node, MainSize(node, r), k)
  {
    hide Intrinsic, FillSize, Position, Present;
    var main, limit, child := MainSize(node, r), CrossLimit(node, r), node.children[k].value;
    size := measured;
    if child.fill {
      size := if last then Max(0, main - position) else fillSize;
    }
    size := Min(size, Max(0, main - position));
    var crossSize, crossPosition := Min(Intrinsic(child, Cross(node.direction)), limit), 0;
    match node.align {
      case Start =>
      case Stretch => crossSize := limit;
      case Center => crossPosition := Max(0, limit - crossSize) / 2;
      case End => crossPosition := Max(0, limit - crossSize);
    }
    rect := if node.direction == Column then Rect(r.x + crossPosition, r.y + position, crossSize, size)
            else Rect(r.x + position, r.y + crossPosition, size, crossSize);
  }

  method RenderChildren(f: Frame, node: Node, r: Rect, theme: Theme)
    requires f.Valid() && !Empty(r) && Within(r, f.Bounds())
    modifies f, f.cells
    ensures forall x, y :: 0 <= x < f.width && 0 <= y < f.height ==>
      f.At(x, y) == Or(ChildrenAt(node, theme, r, |node.children|, Pos(x, y)), old(f.At(x, y)))
    ensures f.hits == old(f.hits) + ChildHits(node, r, |node.children|)
    decreases node, |node.children|
  {
    hide Intrinsic, FillSize, StartPosition, ChildRect, Extent, MainSize, Within;
    var count := CountChildren(node);
    if count == 0 {
      NoChildren(node, theme, r, |node.children|);
      return;
    }
    var main := MainSize(node, r);
    var intrinsic, fillSize, position := Measure(node, main, count);
    var index := 0;
    for k := 0 to |node.children|
      invariant index == Present(node, k) && position == Position(node, main, k)
      invariant forall x, y :: 0 <= x < f.width && 0 <= y < f.height ==>
        f.At(x, y) == Or(ChildrenAt(node, theme, r, k, Pos(x, y)), old(f.At(x, y)))
      invariant f.hits == old(f.hits) + ChildHits(node, r, k)
    {
      if node.children[k].Some? {
        var rect, size := PlaceChild(node, r, k, position, intrinsic[index], index + 1 == count, fillSize);
        ChildInside(node, r, k);
        WithinTrans(rect, r, f.Bounds());
        RenderNode(f, node.children[k].value, rect, theme);
        index, position := index + 1, position + size + node.gap;
      }
    }
  }

  lemma {:induction false} NoChildren(node: Node, theme: Theme, r: Rect, k: nat)
    requires k <= |node.children| && Present(node, k) == 0
    ensures forall p :: ChildrenAt(node, theme, r, k, p) == None
    ensures ChildHits(node, r, k) == []
  {
    if k > 0 {
      NoChildren(node, theme, r, k - 1);
    }
  }

  /** The renderer and the cell storage it reuses between renders. */
  class Renderer {
    var buffer: array<Cell>

    constructor ()
      ensures fresh(buffer)
    {
      buffer := new Cell[0](_ => BLANK);
    }

    /** Storage for `n` cells, all blank: grown when it is too small, otherwise cleared. */
    method Blank(n: nat)
      modifies this, buffer
      ensures buffer == old(buffer) || fresh(buffer)
      ensures buffer.Length >= n && forall k :: 0 <= k < n ==> buffer[k] == BLANK
    {
      if buffer.Length < n {
        buffer := new Cell[n](_ => BLANK);
      }
      for k := 0 to n
        invariant buffer == old(buffer) || fresh(buffer)
        invariant buffer.Length >= n && forall j :: 0 <= j < k ==> buffer[j] == BLANK
      {
        buffer[k] := BLANK;
      }
    }

    /**
     A frame in the reused storage holds exactly what the root paints over blanks, and no
     control rune, whatever was rendered there before and at whatever size.
     */
    method Render(root: Option<Node>, width: int, height: int, theme: Theme) returns (f: Frame)
      modifies this, buffer
      ensures fresh(f) && f.Valid() && f.cells == buffer && (buffer == old(buffer) || fresh(buffer))
      ensures f.width == Max(0, width) && f.height == Max(0, height)
      ensures forall x, y :: 0 <= x < f.width && 0 <= y < f.height ==>
        var c := if root.None? then None else Shown(root.value, theme, Rect(0, 0, f.width, f.height), Pos(x, y));
        f.At(x, y) == if c.Some? then c.value else BLANK
      ensures forall x, y :: 0 <= x < f.width && 0 <= y < f.height ==> Safe(f.At(x, y).code)
      ensures f.hits == if root.None? then [] else Hits(root.value, Rect(0, 0, f.width, f.height))
    {
      var w, h := Max(0, width), Max(0, height);
      Blank(w * h);
      f := new Frame(w, h, buffer);
      forall x, y | 0 <= x < w && 0 <= y < h ensures f.At(x, y) == BLANK {
        IndexInside(w, h, x, y);
      }
      if root.Some? {
        hide Shown, Hits, Frame.At;
        RenderNode(f, root.value, f.Bounds(), theme);
        forall x, y | 0 <= x < f.width && 0 <= y < f.height ensures Safe(f.At(x, y).code) {
          PaintsInside(root.value, theme, f.Bounds(), Pos(x, y));
        }
      }
    }
  }

  // ----- mouse input

  class Focus {
    var key: string

    constructor ()
      ensures key == ""
    {
      key := "";
    }

    /**
     Routes a click (`press`: first button, press or release) by the recorded regions,
     the latest one first. With regions that share no point, as a rendering records
     them, the order does not matter: the target is the button under the pointer. Only
     a click on a button moves the focus.
     */
    method Click(hits: seq<Hit>, p: Pos, press: bool) returns (target: Option<Node>)
      modifies this
      ensures target.Some? <==> press && exists i :: 0 <= i < |hits| && Has(hits[i].rect, p)
      ensures forall i :: 0 <= i < |hits| && press && Has(hits[i].rect, p) && LatestAt(hits, p, i) ==> target == Some(hits[i].node)
      ensures forall i :: 0 <= i < |hits| && press && Has(hits[i].rect, p) && PairwiseApart(hits) ==> target == Some(hits[i].node)
      ensures key == if target.Some? then target.value.key else old(key)
    {
      target := None;
      var i := |hits|;
      while i > 0
        invariant 0 <= i <= |hits| && key == old(key)
        invariant forall j :: i <= j < |hits| ==> !(press && Has(hits[j].rect, p))
      {
        i := i - 1;
        if Has(hits[i].rect, p) && press {
          key := hits[i].node.key;
          forall j | 0 <= j < i && PairwiseApart(hits) ensures !Has(hits[j].rect, p) {
            assert Apart(hits[j].rect, hits[i].rect);
          }
          return Some(hits[i].node);
        }
      }
    }
  }

  ghost predicate LatestAt(hits: seq<Hit>, p: Pos, i: nat) {
    forall j :: i < j < |hits| ==> !Has(hits[j].rect, p)
  }
}
