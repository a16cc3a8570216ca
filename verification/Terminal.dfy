/**
 A byte-driven terminal: a grid of painted cells, a cursor that may be unknown, a
 current style and an escape-sequence parser. It understands CUP (section 8.3.21
 of ECMA-48), SGR (section 8.3.117) and UTF-8 text; anything else loses track of
 the whole screen, so a proof that the screen is right also proves that nothing
 else was sent. A character outside ASCII paints one cell but may be of any width,
 so it leaves the cursor unknown, and so does the last column (pending wrap).
 */
module Terminal {
  import opened Results
  import opened Bytes
  import opened Utf8
  import opened Abi

  datatype Color = DefaultColor | TrueColor(rgb: Rgb)

  datatype Style = Style(fg: Color, bg: Color, bold: bool, italic: bool, underline: bool)

  datatype Shown = Shown(ch: int, style: Style)

  datatype Pos = Pos(x: nat, y: nat)

  /** Painted positions; a position that is missing has unknown content. */
  type Canvas = map<Pos, Shown>

  datatype Cursor = At(x: nat, y: nat) | Lost

  datatype Parser =
    | Ground
    | Escape
    | Csi(done: seq<nat>, acc: nat)
    | Multi(pending: bytes)

  datatype Term = Term(w: nat, h: nat, grid: Canvas, cursor: Cursor, style: Style, parser: Parser)

  const PLAIN := Style(DefaultColor, DefaultColor, false, false, false)

  function Confused(t: Term): (r: Term) {
    t.(grid := map[], cursor := Lost, parser := Ground)
  }

  predicate IsAscii(ch: int) {
    0x20 <= ch <= 0x7E
  }

  function Paint(t: Term, ch: int): (r: Term) {
    if t.cursor.At? && t.cursor.x < t.w && t.cursor.y < t.h then
      t.(grid := t.grid[Pos(t.cursor.x, t.cursor.y) := Shown(ch, t.style)],
         cursor := if IsAscii(ch) && t.cursor.x + 1 < t.w then At(t.cursor.x + 1, t.cursor.y) else Lost,
         parser := Ground)
    else
      Confused(t)
  }

  /** CUP: one-based row and column. */
  function MoveTo(t: Term, ps: seq<nat>): (r: Term) {
    t.(cursor := if |ps| == 2 && 1 <= ps[0] <= t.h && 1 <= ps[1] <= t.w then At(ps[1] - 1, ps[0] - 1) else Lost,
       parser := Ground)
  }

  /** SGR: parameters apply from left to right. */
  function Sgr(s: Style, ps: seq<nat>): (r: Style)
    decreases |ps|
  {
    if ps == [] then s
    else if ps[0] == 0 then Sgr(PLAIN, ps[1..])
    else if ps[0] == 1 then Sgr(s.(bold := true), ps[1..])
    else if ps[0] == 3 then Sgr(s.(italic := true), ps[1..])
    else if ps[0] == 4 then Sgr(s.(underline := true), ps[1..])
    else if (ps[0] == 38 || ps[0] == 48) && |ps| >= 5 && ps[1] == 2 && ps[2] < 256 && ps[3] < 256 && ps[4] < 256 then
      var c := TrueColor(Rgb(ps[2], ps[3], ps[4]));
      Sgr(if ps[0] == 38 then s.(fg := c) else s.(bg := c), ps[5..])
    else Sgr(s, ps[1..])
  }

  const ESC: byte := 0x1B
  const LBRACKET: byte := 0x5B
  const SEMI: byte := 0x3B
  const FINAL_CUP: byte := 0x48
  const FINAL_SGR: byte := 0x6D

  function Finish(t: Term, ps: seq<nat>, final: byte): (r: Term) {
    if final == FINAL_CUP then MoveTo(t, ps)
    else if final == FINAL_SGR then t.(style := Sgr(t.style, ps), parser := Ground)
    else Confused(t)
  }

  /** One byte of input. ESC abandons whatever sequence or character was being received. */
  function Step(t: Term, b: byte): (r: Term) {
    if b == ESC then t.(parser := Escape)
    else match t.parser
      case Ground =>
        if IsAscii(b) then Paint(t, b)
        else if b >= 0x80 && Fits([b]) then t.(parser := Multi([b]))
        else Confused(t)
      case Escape =>
        if b == LBRACKET then t.(parser := Csi([], 0)) else Confused(t)
      case Csi(done, acc) =>
        if 48 <= b <= 57 then t.(parser := Csi(done, 10 * acc + (b - 48)))
        else if b == SEMI then t.(parser := Csi(done + [acc], 0))
        else Finish(t, done + [acc], b)
      case Multi(pending) =>
        var s := pending + [b];
        if IsChar(s) then Paint(t, Scalar(s))
        else if Fits(s) then t.(parser := Multi(s))
        else Confused(t)
  }

  function Run(t: Term, bs: bytes): (r: Term)
    decreases |bs|
  {
    if bs == [] then t else Run(Step(t, bs[0]), bs[1..])
  }

  function Lookup(grid: Canvas, p: Pos): (c: Option<Shown>) {
    if p in grid then Some(grid[p]) else None
  }

  /** Every position of `grid` still shows what `base` had there, or what `target` wants there. */
  ghost predicate Mixed(grid: Canvas, base: Canvas, target: Canvas) {
    forall p: Pos :: Lookup(grid, p) == Lookup(base, p) || (p in target && Lookup(grid, p) == Some(target[p]))
  }

  /** The screen is mixed after every prefix of `bs`: nothing but wanted cells is ever painted on the way. */
  ghost predicate Safe(t: Term, bs: bytes, base: Canvas, target: Canvas)
    decreases |bs|
  {
    Mixed(t.grid, base, target) && (bs != [] ==> Safe(Step(t, bs[0]), bs[1..], base, target))
  }

  lemma {:induction false} RunConcat(t: Term, a: bytes, b: bytes)
    ensures Run(t, a + b) == Run(Run(t, a), b)
    decreases |a|
  {
    if a == [] {
      assert a + b == b;
    } else {
      assert (a + b)[1..] == a[1..] + b;
      RunConcat(Step(t, a[0]), a[1..], b);
    }
  }

  lemma {:induction false} SafeConcat(t: Term, a: bytes, b: bytes, base: Canvas, target: Canvas)
    requires Safe(t, a, base, target) && Safe(Run(t, a), b, base, target)
    ensures Safe(t, a + b, base, target)
    decreases |a|
  {
    if a == [] {
      assert a + b == b;
    } else {
      assert (a + b)[1..] == a[1..] + b;
      SafeConcat(Step(t, a[0]), a[1..], b, base, target);
    }
  }

  /** A safe stream may be cut anywhere. */
  lemma {:induction false} SafePrefix(t: Term, bs: bytes, k: nat, base: Canvas, target: Canvas)
    requires Safe(t, bs, base, target) && k <= |bs|
    ensures Mixed(Run(t, bs[..k]).grid, base, target)
    decreases |bs|
  {
    if k > 0 {
      assert bs[..k][1..] == bs[1..][..k - 1];
      SafePrefix(Step(t, bs[0]), bs[1..], k - 1, base, target);
    }
  }

  // ----- control sequences

  /** Parameters separated by semicolons. */
  function Params(ps: seq<nat>): (bs: bytes)
    requires ps != []
    decreases |ps|
  {
    if |ps| == 1 then Decimal(ps[0]) else Decimal(ps[0]) + [SEMI] + Params(ps[1..])
  }

  function CsiBytes(ps: seq<nat>, final: byte): (bs: bytes)
    requires ps != []
    ensures |bs| > 2 && bs[0] == ESC
  {
    [ESC, LBRACKET] + Params(ps) + [final]
  }

  lemma {:induction false} DigitsRun(t: Term, n: nat, base: Canvas, target: Canvas)
    requires t.parser.Csi? && t.parser.acc == 0 && Mixed(t.grid, base, target)
    ensures Run(t, Decimal(n)) == t.(parser := Csi(t.parser.done, n))
    ensures Safe(t, Decimal(n), base, target)
    decreases n
  {
    if n < 10 {
      assert Run(Step(t, 48 + n), []) == t.(parser := Csi(t.parser.done, n));
    } else {
      var last: bytes := [48 + n % 10];
      DigitsRun(t, n / 10, base, target);
      RunConcat(t, Decimal(n / 10), last);
      var u := Run(t, Decimal(n / 10));
      assert Run(u, last) == Step(u, last[0]);
      SafeConcat(t, Decimal(n / 10), last, base, target);
    }
  }

  lemma {:induction false} ParamsRun(t: Term, ps: seq<nat>, base: Canvas, target: Canvas)
    requires ps != []
    requires t.parser.Csi? && t.parser.acc == 0 && Mixed(t.grid, base, target)
    ensures Run(t, Params(ps)) == t.(parser := Csi(t.parser.done + ps[..|ps| - 1], ps[|ps| - 1]))
    ensures Safe(t, Params(ps), base, target)
    decreases |ps|
  {
    hide Mixed, Run, Safe, Decimal;
    var done := t.parser.done;
    DigitsRun(t, ps[0], base, target);
    if |ps| == 1 {
      assert done + ps[..0] == done;
    } else {
      var u := t.(parser := Csi(done + [ps[0]], 0));
      SeparatorRun(t, ps[0], base, target);
      ParamsRun(u, ps[1..], base, target);
      var head := Decimal(ps[0]) + [SEMI];
      RunConcat(t, head, Params(ps[1..]));
      SafeConcat(t, head, Params(ps[1..]), base, target);
      assert done + [ps[0]] + ps[1..][..|ps| - 2] == done + ps[..|ps| - 1];
    }
  }

  lemma SeparatorRun(t: Term, n: nat, base: Canvas, target: Canvas)
    requires t.parser.Csi? && t.parser.acc == 0 && Mixed(t.grid, base, target)
    ensures Run(t, Decimal(n) + [SEMI]) == t.(parser := Csi(t.parser.done + [n], 0))
    ensures Safe(t, Decimal(n) + [SEMI], base, target)
  {
    hide Mixed, Run, Safe, Decimal;
    DigitsRun(t, n, base, target);
    OneByte(Run(t, Decimal(n)), SEMI, base, target);
    RunConcat(t, Decimal(n), [SEMI]);
    SafeConcat(t, Decimal(n), [SEMI], base, target);
  }

  /** One byte is one step. */
  lemma OneByte(t: Term, b: byte, base: Canvas, target: Canvas)
    requires Mixed(t.grid, base, target)
    ensures Run(t, [b]) == Step(t, b)
    ensures Mixed(Step(t, b).grid, base, target) ==> Safe(t, [b], base, target)
  {
    hide Step, Mixed;
    assert [b][1..] == [];
    assert Run(Step(t, b), []) == Step(t, b);
    assert Mixed(Step(t, b).grid, base, target) ==> Safe(Step(t, b), [], base, target);
  }

  lemma IntroRun(t: Term, base: Canvas, target: Canvas)
    requires Mixed(t.grid, base, target)
    ensures Run(t, [ESC, LBRACKET]) == t.(parser := Csi([], 0)) && Safe(t, [ESC, LBRACKET], base, target)
  {
    hide Mixed;
    var u := Step(t, ESC);
    OneByte(t, ESC, base, target);
    OneByte(u, LBRACKET, base, target);
    hide Run, Safe;
    assert [ESC] + [LBRACKET] == [ESC, LBRACKET];
    RunConcat(t, [ESC], [LBRACKET]);
    SafeConcat(t, [ESC], [LBRACKET], base, target);
  }

  lemma FinalStep(t: Term, ps: seq<nat>, final: byte)
    requires ps != [] && (final == FINAL_CUP || final == FINAL_SGR)
    requires t.parser == Csi(ps[..|ps| - 1], ps[|ps| - 1])
    ensures Step(t, final) == Finish(t, ps, final) && Step(t, final).grid == t.grid
  {
    assert ps[..|ps| - 1] + [ps[|ps| - 1]] == ps;
  }

  /** A whole control sequence does its job from any parser state and paints nothing on the way. */
  lemma CsiRun(t: Term, ps: seq<nat>, final: byte, base: Canvas, target: Canvas)
    requires ps != [] && (final == FINAL_CUP || final == FINAL_SGR)
    requires Mixed(t.grid, base, target)
    ensures Run(t, CsiBytes(ps, final)) == Finish(t, ps, final)
    ensures Safe(t, CsiBytes(ps, final), base, target)
  {
    hide Mixed, Run, Safe, Step, Params;
    var intro: bytes := [ESC, LBRACKET];
    var u := t.(parser := Csi([], 0));
    IntroRun(t, base, target);
    ParamsRun(u, ps, base, target);
    var v := Run(u, Params(ps));
    assert [] + ps[..|ps| - 1] == ps[..|ps| - 1];
    FinalStep(v, ps, final);
    OneByte(v, final, base, target);
    RunConcat(t, intro, Params(ps));
    SafeConcat(t, intro, Params(ps), base, target);
    RunConcat(t, intro + Params(ps), [final]);
    SafeConcat(t, intro + Params(ps), [final], base, target);
  }

  // ----- text

  lemma {:induction false} MultiRun(t: Term, s: bytes, k: nat)
    requires t.parser.Ground? && IsChar(s) && s[0] >= 0x80
    requires 0 < k < |s|
    ensures Run(t, s[..k]) == t.(parser := Multi(s[..k]))
    decreases k
  {
    if k == 1 {
      assert s[..1] == [s[0]];
      assert Run(t, s[..1]) == Step(t, s[0]);
    } else {
      MultiRun(t, s, k - 1);
      assert s[..k] == s[..k - 1] + [s[k - 1]];
      RunConcat(t, s[..k - 1], [s[k - 1]]);
      var u := t.(parser := Multi(s[..k - 1]));
      assert Run(u, [s[k - 1]]) == Step(u, s[k - 1]);
      assert Fits(s[..k]) && !IsChar(s[..k]);
    }
  }

  lemma {:induction false} MultiSafe(t: Term, s: bytes, k: nat, base: Canvas, target: Canvas)
    requires t.parser.Ground? && IsChar(s) && s[0] >= 0x80
    requires 0 < k < |s| && Mixed(t.grid, base, target)
    ensures Safe(t, s[..k], base, target)
    decreases k
  {
    if k == 1 {
      assert s[..1] == [s[0]];
      assert Safe(Step(t, s[0]), [], base, target);
    } else {
      MultiSafe(t, s, k - 1, base, target);
      MultiRun(t, s, k - 1);
      MultiRun(t, s, k);
      assert s[..k] == s[..k - 1] + [s[k - 1]];
      RunConcat(t, s[..k - 1], [s[k - 1]]);
      var u := Run(t, s[..k - 1]);
      assert Run(u, [s[k - 1]]) == Step(u, s[k - 1]);
      assert Safe(u, [s[k - 1]], base, target);
      SafeConcat(t, s[..k - 1], [s[k - 1]], base, target);
    }
  }

  /** A glyph paints exactly the cell under the cursor. */
  lemma GlyphRun(t: Term, ch: int, base: Canvas, target: Canvas)
    requires SafeRune(ch) && t.parser.Ground?
    requires t.cursor.At? && t.cursor.x < t.w && t.cursor.y < t.h
    requires Pos(t.cursor.x, t.cursor.y) in target && target[Pos(t.cursor.x, t.cursor.y)] == Shown(ch, t.style)
    requires Mixed(t.grid, base, target)
    ensures Run(t, Encode(ch)) == Paint(t, ch)
    ensures Safe(t, Encode(ch), base, target)
  {
    PaintIsMixed(t, ch, base, target);
    if ch <= 0x7E {
      hide Mixed, Run, Safe;
      assert Encode(ch) == [ch];
      OneByte(t, ch, base, target);
    } else {
      WideGlyphRun(t, ch, base, target);
    }
  }

  lemma PaintIsMixed(t: Term, ch: int, base: Canvas, target: Canvas)
    requires t.cursor.At? && t.cursor.x < t.w && t.cursor.y < t.h
    requires Pos(t.cursor.x, t.cursor.y) in target && target[Pos(t.cursor.x, t.cursor.y)] == Shown(ch, t.style)
    requires Mixed(t.grid, base, target)
    ensures Mixed(Paint(t, ch).grid, base, target)
  {
  }

  /** A multi-byte glyph paints only with its last byte. */
  lemma WideGlyphRun(t: Term, ch: int, base: Canvas, target: Canvas)
    requires SafeRune(ch) && t.parser.Ground? && ch > 0x7E
    requires Mixed(t.grid, base, target) && Mixed(Paint(t, ch).grid, base, target)
    ensures Run(t, Encode(ch)) == Paint(t, ch)
    ensures Safe(t, Encode(ch), base, target)
  {
    var s := Encode(ch);
    EncodeIsChar(ch);
    hide Mixed, Run, Safe, Scalar, Encode;
    var n := |s| - 1;
    assert s == s[..n] + [s[n]];
    MultiRun(t, s, n);
    MultiSafe(t, s, n, base, target);
    var u := Run(t, s[..n]);
    assert u.parser.pending + [s[n]] == s;
    LastByte(u, t, s, ch);
    OneByte(u, s[n], base, target);
    RunConcat(t, s[..n], [s[n]]);
    SafeConcat(t, s[..n], [s[n]], base, target);
  }

  lemma LastByte(u: Term, t: Term, s: bytes, ch: int)
    requires IsChar(s) && s[0] >= 0x80 && Scalar(s) == ch && |s| > 1
    requires u == t.(parser := Multi(s[..|s| - 1])) && t.parser.Ground?
    ensures Step(u, s[|s| - 1]) == Paint(t, ch)
  {
    hide Scalar;
    assert s[..|s| - 1] + [s[|s| - 1]] == s;
  }
}
