/**
 The sink that paints frames at a capped rate. `Present`, the delayed callback and
 `Close` each run under one lock, so they are the atomic steps; a timer that has
 already fired when `Stop` is called still runs its callback later.
 */
module TtySink {
  import opened Results
  import opened Bytes
  import opened Abi
  import opened Terminal
  import opened Screen

  /** `throttle`: at most one flush per `min`; `last` is unset before the first. */
  datatype Throttle = Throttle(min: nat, last: Option<int>)

  predicate Allows(thr: Throttle, now: int) {
    thr.min == 0 || thr.last.None? || now - thr.last.value >= thr.min
  }

  function Allowed(thr: Throttle, now: int): (r: Throttle) {
    if Allows(thr, now) then thr.(last := Some(now)) else thr
  }

  /**
   The sink and the runtime timers it started: `armed` ones are waiting, `fired`
   ones have a callback blocked on the lock.
   */
  datatype Sink = Sink(scr: ScreenState, w: int, h: int, thr: Throttle, dirty: bool,
                       timer: Option<nat>, armed: set<nat>, fired: set<nat>, nextId: nat)

  /** What the writer does with one flush: how many bytes it takes and whether it reports an error. */
  datatype Io = Io(n: nat, err: bool)

  function SanitizedRow(f: Frame, y: nat): (row: seq<Cell>)
    requires ValidFrame(f) && y < f.h
    ensures |row| == f.w && CleanRow(row)
  {
    seq(f.w, x requires 0 <= x < f.w => var c := CellOf(f, x, y); c.(ch := SanitizeRune(c.ch)))
  }

  function CellOf(f: Frame, x: nat, y: nat): (c: Cell)
    requires ValidFrame(f) && x < f.w && y < f.h
  {
    InFrame(f.w, f.h, x, y);
    f.cells[y * f.w + x]
  }

  lemma InFrame(w: nat, h: nat, x: nat, y: nat)
    requires x < w && y < h
    ensures y * w + x < w * h
  {
    assert (y + 1) * w <= h * w;
  }

  /** The grid a frame asks for, after the host has sanitized it. */
  function FrameGrid(f: Frame): (g: Grid)
    requires ValidFrame(f)
    ensures Rect(g, f.w, f.h) && Clean(g)
  {
    seq(f.h, y requires 0 <= y < f.h => SanitizedRow(f, y))
  }

  function StopTimer(s: Sink): (r: Sink) {
    if s.timer.Some? then s.(armed := s.armed - {s.timer.value}, timer := None) else s
  }

  /** A flush under the lock: the new sink and the bytes handed to the writer. */
  function FlushSink(s: Sink, io: Io): (r: (Sink, bytes))
    requires WellSized(s.scr)
  {
    (s.(scr := Flushed(s.scr, io.n, io.err), dirty := false), FlushBytes(s.scr.was, s.scr.cur))
  }

  /** The screen with a frame's cells in place, resized first if the frame has another size. */
  function Loaded(s: Sink, f: Frame): (r: Sink)
    requires ValidFrame(f) && WellSized(s.scr)
  {
    var scr := if f.w != s.w || f.h != s.h then Resized(f.w, f.h, s.scr.failed) else s.scr;
    s.(scr := scr.(cur := FrameGrid(f)), w := f.w, h := f.h)
  }

  /** The size the sink remembers is the screen's own, whenever a frame could have it. */
  predicate SizeTracked(s: Sink) {
    1 <= s.w <= MAX_WIDTH && 1 <= s.h <= MAX_HEIGHT ==> s.scr.w == s.w && s.scr.h == s.h
  }

  lemma LoadedIsSized(s: Sink, f: Frame)
    requires ValidFrame(f) && WellSized(s.scr) && SizeTracked(s)
    ensures WellSized(Loaded(s, f).scr) && SizeTracked(Loaded(s, f))
    ensures Loaded(s, f).scr.w == f.w && Loaded(s, f).scr.h == f.h && Clean(Loaded(s, f).scr.cur)
  {
  }

  function Present(s: Sink, f: Frame, now: int, io: Io): (r: (Sink, bytes))
    requires WellSized(s.scr) && SizeTracked(s)
  {
    if !ValidFrame(f) then (s, [])
    else
      LoadedIsSized(s, f);
      var u := Loaded(s, f);
      if Allows(u.thr, now) then FlushSink(StopTimer(u).(thr := Allowed(u.thr, now)), io)
      else
        var v := u.(dirty := true);
        (if v.timer.None? then v.(timer := Some(v.nextId), armed := v.armed + {v.nextId}, nextId := v.nextId + 1) else v,
         [])
  }

  /** The runtime starts the callback of an armed timer; it now waits for the lock. */
  function Fire(s: Sink, id: nat): (r: Sink) {
    s.(armed := s.armed - {id}, fired := s.fired + {id})
  }

  function Callback(s: Sink, id: nat, now: int, io: Io): (r: (Sink, bytes))
    requires WellSized(s.scr)
  {
    var u := s.(fired := s.fired - {id}, timer := None);
    if !u.dirty then (u, []) else FlushSink(u.(thr := Allowed(u.thr, now)), io)
  }

  function Close(s: Sink, io: Io): (r: (Sink, bytes))
    requires WellSized(s.scr)
  {
    var u := StopTimer(s);
    if u.dirty then FlushSink(u, io) else (u, [])
  }

  // ----- runs

  /** The sink together with the viewer's terminal and the last valid frame presented. */
  datatype World = World(sink: Sink, term: Term, last: Option<Frame>)

  /** `viewer` is the terminal as the viewer's own resize leaves it; it matters only when the size changes. */
  datatype Step =
    | DoPresent(f: Frame, now: int, io: Io, viewer: Term)
    | DoFire(id: nat)
    | DoCallback(id: nat, now: int, io: Io)
    | DoClose(io: Io)

  ghost predicate Enabled(x: World, st: Step) {
    match st
    case DoPresent(f, _, _, viewer) => ValidFrame(f) ==> viewer.w == f.w && viewer.h == f.h
    case DoFire(id) => id in x.sink.armed
    case DoCallback(id, _, _) => id in x.sink.fired
    case DoClose(_) => true
  }

  /** The writer takes everything it is given without an error. */
  predicate Successful(io: Io, b: bytes) {
    io.n == |b| && !io.err
  }

  function Output(x: World, st: Step): (b: bytes)
    requires WellSized(x.sink.scr) && SizeTracked(x.sink)
  {
    match st
    case DoPresent(f, now, io, _) => Present(x.sink, f, now, io).1
    case DoFire(_) => []
    case DoCallback(id, now, io) => Callback(x.sink, id, now, io).1
    case DoClose(io) => Close(x.sink, io).1
  }

  function IoOf(st: Step): (io: Io) {
    match st
    case DoPresent(_, _, io, _) => io
    case DoFire(_) => Io(0, false)
    case DoCallback(_, _, io) => io
    case DoClose(io) => io
  }

  function Sent(io: Io, b: bytes): (bs: bytes) {
    if io.n <= |b| then b[..io.n] else b
  }

  function Next(x: World, st: Step): (r: World)
    requires WellSized(x.sink.scr) && SizeTracked(x.sink)
  {
    match st
    case DoPresent(f, now, io, viewer) =>
      if !ValidFrame(f) then x
      else
        var (s, b) := Present(x.sink, f, now, io);
        var t := if f.w != x.sink.w || f.h != x.sink.h then viewer else x.term;
        x.(sink := s, term := Run(t, Sent(io, b)), last := Some(f))
    case DoFire(id) => x.(sink := Fire(x.sink, id))
    case DoCallback(id, now, io) =>
      var (s, b) := Callback(x.sink, id, now, io);
      x.(sink := s, term := Run(x.term, Sent(io, b)))
    case DoClose(io) =>
      var (s, b) := Close(x.sink, io);
      x.(sink := s, term := Run(x.term, Sent(io, b)))
  }

  /** What holds in every reachable state, whatever the writer does. */
  ghost predicate Inv(x: World) {
    var s := x.sink;
    && WellSized(s.scr) && SizeTracked(s) && Clean(s.scr.cur)
    && x.term.w == s.scr.w && x.term.h == s.scr.h
    && (s.timer.Some? ==> s.timer.value in s.armed + s.fired)
    && (s.dirty ==> s.timer.Some?)
    && (forall id :: id in s.armed ==> id < s.nextId)
    && (forall id :: id in s.fired ==> id < s.nextId)
    && (x.last.Some? ==> ValidFrame(x.last.value) && s.scr.cur == FrameGrid(x.last.value)
                         && s.w == x.last.value.w && s.h == x.last.value.h)
  }

  /** What holds in addition as long as every write succeeded. */
  ghost predicate Synced(x: World) {
    var s := x.sink;
    && ShowsKnown(x.term, s.scr.was)
    && (x.last.Some? && !s.dirty ==> s.scr.was == s.scr.cur)
  }

  lemma InvStep(x: World, st: Step)
    requires Inv(x) && Enabled(x, st)
    ensures Inv(Next(x, st))
  {
    hide Run, FlushBytes, FrameGrid;
    match st
    case DoPresent(f, now, io, viewer) =>
      if ValidFrame(f) {
        LoadedIsSized(x.sink, f);
        var u := Loaded(x.sink, f);
        var p := Present(x.sink, f, now, io);
        var t := if f.w != x.sink.w || f.h != x.sink.h then viewer else x.term;
        RunKeepsSize(t, Sent(io, p.1));
        assert p.0.scr.cur == u.scr.cur == FrameGrid(f);
        assert p.0.scr.w == f.w && p.0.scr.h == f.h;
        assert p.0.dirty ==> p.0.timer.Some?;
      }
    case DoFire(id) =>
    case DoCallback(id, now, io) =>
      RunKeepsSize(x.term, Sent(io, Callback(x.sink, id, now, io).1));
    case DoClose(io) =>
      RunKeepsSize(x.term, Sent(io, Close(x.sink, io).1));
  }

  /** A successful flush makes the terminal show the wanted grid and the sink know it. */
  lemma FlushSyncs(t: Term, scr: ScreenState, io: Io)
    requires WellSized(scr) && Clean(scr.cur) && t.w == scr.w && t.h == scr.h && ShowsKnown(t, scr.was)
    requires Successful(io, FlushBytes(scr.was, scr.cur))
    ensures var b := FlushBytes(scr.was, scr.cur);
            var r := Run(t, Sent(io, b));
            Shows(r, scr.cur) && ShowsKnown(r, Flushed(scr, io.n, io.err).was) && Flushed(scr, io.n, io.err).was == scr.cur
  {
    var b := FlushBytes(scr.was, scr.cur);
    assert Sent(io, b) == b;
    FlushShows(t, scr.was, scr.cur);
    EmptyFlush(scr.was, scr.cur);
  }

  lemma SyncedStep(x: World, st: Step)
    requires Inv(x) && Synced(x) && Enabled(x, st)
    requires Successful(IoOf(st), Output(x, st)) || Output(x, st) == []
    ensures Synced(Next(x, st))
  {
    hide Run, FlushBytes, FrameGrid, Shows, ShowsKnown;
    match st
    case DoPresent(f, now, io, viewer) =>
      if ValidFrame(f) {
        LoadedIsSized(x.sink, f);
        var u := Loaded(x.sink, f);
        var t := if f.w != x.sink.w || f.h != x.sink.h then viewer else x.term;
        assert ShowsKnown(t, u.scr.was) by {
          if f.w != x.sink.w || f.h != x.sink.h {
            BlankIsKnown(t, u.scr.was);
          }
        }
        if Allows(u.thr, now) {
          FlushOrIdle(t, u.scr, io);
        }
        RunNothing(t);
      }
    case DoFire(id) =>
    case DoCallback(id, now, io) =>
      if x.sink.dirty {
        FlushOrIdle(x.term, x.sink.scr, io);
      }
      RunNothing(x.term);
    case DoClose(io) =>
      if x.sink.dirty {
        FlushOrIdle(x.term, x.sink.scr, io);
      }
      RunNothing(x.term);
  }

  lemma RunNothing(t: Term)
    ensures forall io: Io :: Sent(io, []) == [] && Run(t, Sent(io, [])) == t
  {
    forall io: Io
      ensures Sent(io, []) == [] && Run(t, Sent(io, [])) == t
    {
      assert Sent(io, []) == [];
    }
  }

  lemma BlankIsKnown(t: Term, g: Grid)
    requires forall x: nat, y: nat :: y < |g| && x < |g[y]| ==> g[y][x].ch == 0
    ensures ShowsKnown(t, g)
  {
  }

  lemma FlushOrIdle(t: Term, scr: ScreenState, io: Io)
    requires WellSized(scr) && Clean(scr.cur) && t.w == scr.w && t.h == scr.h && ShowsKnown(t, scr.was)
    requires Successful(io, FlushBytes(scr.was, scr.cur)) || FlushBytes(scr.was, scr.cur) == []
    ensures var r := Run(t, Sent(io, FlushBytes(scr.was, scr.cur)));
            ShowsKnown(r, Flushed(scr, io.n, io.err).was) && Flushed(scr, io.n, io.err).was == scr.cur
  {
    EmptyFlush(scr.was, scr.cur);
    if FlushBytes(scr.was, scr.cur) == [] {
      RunNothing(t);
    } else {
      FlushSyncs(t, scr, io);
    }
  }

  /** A run: every step enabled when it is taken. */
  ghost predicate Trace(x: World, steps: seq<Step>, z: World)
    decreases |steps|
  {
    if steps == [] then x == z
    else Inv(x) && Enabled(x, steps[0]) && Trace(Next(x, steps[0]), steps[1..], z)
  }

  /** Every write of the run succeeded. */
  ghost predicate AllWritten(x: World, steps: seq<Step>)
    decreases |steps|
  {
    steps == [] ||
    (Inv(x) && (Successful(IoOf(steps[0]), Output(x, steps[0])) || Output(x, steps[0]) == [])
     && AllWritten(Next(x, steps[0]), steps[1..]))
  }

  lemma {:induction false} TraceInv(x: World, steps: seq<Step>, z: World)
    requires Inv(x) && Trace(x, steps, z)
    ensures Inv(z)
    ensures Synced(x) && AllWritten(x, steps) ==> Synced(z)
    decreases |steps|
  {
    if steps != [] {
      InvStep(x, steps[0]);
      if Synced(x) && AllWritten(x, steps) {
        SyncedStep(x, steps[0]);
      }
      TraceInv(Next(x, steps[0]), steps[1..], z);
    }
  }

  /** Nothing is waiting to happen: no timer armed, no callback blocked on the lock. */
  predicate Quiescent(s: Sink) {
    s.armed == {} && s.fired == {}
  }

  function NewSink(w: int, h: int, min: nat): (s: Sink) {
    Sink(Resized(w, h, false), w, h, Throttle(min, None), false, None, {}, {}, 0)
  }

  /**
   In every interleaving of presents, late callbacks and close, content that has
   not been flushed has a callback outstanding; so when every write succeeded and
   nothing is outstanding, the terminal shows the last frame presented.
   */
  lemma QuiescentShowsLast(w: int, h: int, min: nat, t: Term, steps: seq<Step>, z: World)
    requires var s := NewSink(w, h, min); t.w == s.scr.w && t.h == s.scr.h
    requires Trace(World(NewSink(w, h, min), t, None), steps, z)
    ensures z.sink.dirty ==> z.sink.timer.Some? && z.sink.timer.value in z.sink.armed + z.sink.fired
    ensures AllWritten(World(NewSink(w, h, min), t, None), steps) && Quiescent(z.sink) && z.last.Some? ==>
              ValidFrame(z.last.value) && Shows(z.term, FrameGrid(z.last.value))
  {
    var s := NewSink(w, h, min);
    var x := World(s, t, None);
    BlankIsKnown(t, s.scr.was);
    TraceInv(x, steps, z);
    if AllWritten(x, steps) && Quiescent(z.sink) && z.last.Some? {
      assert !z.sink.dirty && z.sink.scr.was == z.sink.scr.cur == FrameGrid(z.last.value);
      KnownIsShown(z.term, z.sink.scr.was);
    }
  }

  /**
   How a guest's cell must look: printable characters as they are, controls as spaces and
   what is not a scalar value as a question mark; black stands for the default colours; the
   low three decoration bits are bold, italic and underline.
   */
  ghost predicate Renders(s: Shown, c: Cell) {
    && s.ch == (if 0x20 <= c.ch <= 0x7E || 0xA0 <= c.ch <= 0xD7FF || 0xE000 <= c.ch <= 0x10FFFF then c.ch
                else if c.ch < 0xA0 then 0x20 else 0x3F)
    && s.style.fg == TrueColor(if c.fg == Rgb(0, 0, 0) then Rgb(200, 200, 200) else c.fg)
    && s.style.bg == TrueColor(if c.bg == Rgb(0, 0, 0) then Rgb(25, 23, 29) else c.bg)
    && (s.style.bold <==> c.decor % 2 == 1) && (s.style.italic <==> c.decor % 4 >= 2) && (s.style.underline <==> c.decor % 8 >= 4)
  }

  /** The terminal's cell in column `x` of row `y` is the frame's cell `y * w + x`, for every cell. */
  ghost predicate ShowsFrame(t: Term, f: Frame) {
    && |f.cells| == f.w * f.h
    && forall x: nat, y: nat :: x < f.w && y < f.h ==>
        && Pos(x, y) in t.grid && y * f.w + x < |f.cells| && Renders(t.grid[Pos(x, y)], f.cells[y * f.w + x])
  }

  lemma GridIsFrame(t: Term, f: Frame)
    requires ValidFrame(f) && Shows(t, FrameGrid(f))
    ensures ShowsFrame(t, f)
  {
    forall x: nat, y: nat | x < f.w && y < f.h
      ensures Pos(x, y) in t.grid && y * f.w + x < |f.cells| && Renders(t.grid[Pos(x, y)], f.cells[y * f.w + x])
    {
      InFrame(f.w, f.h, x, y);
      GridCell(f, x, y);
      LookRenders(f.cells[y * f.w + x]);
      hide FrameGrid, SanitizeRune, Renders, Look;
      assert ShowsCell(t, FrameGrid(f)[y][x], x, y);
    }
  }

  lemma GridCell(f: Frame, x: nat, y: nat)
    requires ValidFrame(f) && x < f.w && y < f.h
    ensures y * f.w + x < |f.cells|
    ensures var c := f.cells[y * f.w + x]; FrameGrid(f)[y][x] == c.(ch := SanitizeRune(c.ch))
  {
    InFrame(f.w, f.h, x, y);
  }

  lemma LookRenders(c: Cell)
    ensures Renders(Look(c.(ch := SanitizeRune(c.ch))), c)
  {}

  /** So at rest every cell of the last frame stands in its own place, looking as it must. */
  lemma QuiescentShowsCells(w: int, h: int, min: nat, t: Term, steps: seq<Step>, z: World)
    requires var s := NewSink(w, h, min); t.w == s.scr.w && t.h == s.scr.h
    requires var x := World(NewSink(w, h, min), t, None); Trace(x, steps, z) && AllWritten(x, steps)
    requires Quiescent(z.sink) && z.last.Some?
    ensures ShowsFrame(z.term, z.last.value)
  {
    QuiescentShowsLast(w, h, min, t, steps, z);
    hide FrameGrid, Trace, AllWritten, NewSink;
    GridIsFrame(z.term, z.last.value);
  }

  lemma KnownIsShown(t: Term, g: Grid)
    requires Clean(g) && ShowsKnown(t, g)
    ensures Shows(t, g)
  {
    forall x: nat, y: nat | y < |g| && x < |g[y]|
      ensures ShowsCell(t, g[y][x], x, y)
    {
      assert SafeRune(g[y][x].ch);
    }
  }

  ghost predicate NoPresents(steps: seq<Step>) {
    forall k :: 0 <= k < |steps| ==> !(steps[k].DoPresent? && ValidFrame(steps[k].f))
  }

  lemma CleanStaysSilent(x: World, st: Step)
    requires Inv(x) && Enabled(x, st) && !x.sink.dirty && !(st.DoPresent? && ValidFrame(st.f))
    ensures Next(x, st).term == x.term && !Next(x, st).sink.dirty
  {
    hide Run, FlushBytes;
    RunNothing(x.term);
  }

  lemma {:induction false} SilentWithoutPresents(x: World, steps: seq<Step>, z: World)
    requires Inv(x) && !x.sink.dirty && Trace(x, steps, z) && NoPresents(steps)
    ensures z.term == x.term
    decreases |steps|
  {
    hide Next, Enabled;
    if steps != [] {
      InvStep(x, steps[0]);
      assert !(steps[0].DoPresent? && ValidFrame(steps[0].f));
      CleanStaysSilent(x, steps[0]);
      assert forall k :: 0 <= k < |steps| - 1 ==> steps[1..][k] == steps[k + 1];
      SilentWithoutPresents(Next(x, steps[0]), steps[1..], z);
    }
  }

  /** After `Close`, until a frame is presented again, no late callback and no further close reaches the terminal. */
  lemma NothingPaintsAfterClose(x: World, io: Io, steps: seq<Step>, z: World)
    requires Inv(x) && Trace(Next(x, DoClose(io)), steps, z) && NoPresents(steps)
    ensures z.term == Next(x, DoClose(io)).term
  {
    InvStep(x, DoClose(io));
    SilentWithoutPresents(Next(x, DoClose(io)), steps, z);
  }

  /**
   `Present` does not know about `Close`: a frame presented too soon after the last one
   arms a timer whose callback flushes it, closed or not, and paints if it differs from
   what the terminal is known to show.
   */
  lemma LatePresentPaints(x: World, f: Frame, now: int, io: Io, viewer: Term, later: int, flush: Io)
    requires Inv(x) && x.sink.timer.None? && !x.sink.dirty && !Allows(x.sink.thr, now)
    requires ValidFrame(f) && viewer.w == f.w && viewer.h == f.h
    ensures var a := Next(x, DoPresent(f, now, io, viewer));
            && Inv(a) && a.sink.timer == Some(x.sink.nextId) && Enabled(a, DoFire(x.sink.nextId))
            && var b := Next(a, DoFire(x.sink.nextId));
               && Inv(b) && Enabled(b, DoCallback(x.sink.nextId, later, flush))
               && var painted := Output(b, DoCallback(x.sink.nextId, later, flush));
                  && painted == FlushBytes(b.sink.scr.was, FrameGrid(f))
                  && (painted == [] <==> b.sink.scr.was == FrameGrid(f))
  {
    var p := DoPresent(f, now, io, viewer);
    var a := Next(x, p);
    InvStep(x, p);
    InvStep(a, DoFire(x.sink.nextId));
    hide Run, FlushBytes, FrameGrid;
    var b := Next(a, DoFire(x.sink.nextId));
    EmptyFlush(b.sink.scr.was, FrameGrid(f));
  }

  /** A run that paints after close: a frame whose write goes through, a close, and another frame one tick later. */
  lemma PresentAfterClosePaints(f: Frame, g: Frame, t: Term, viewer: Term, io: Io, steps: seq<Step>)
    requires ValidFrame(f) && ValidFrame(g) && f.w == g.w && f.h == g.h && t.w == f.w && t.h == f.h && viewer.w == f.w && viewer.h == f.h
    requires FrameGrid(f) != FrameGrid(g) && io == Io(|FlushBytes(NewSink(f.w, f.h, 10).scr.was, FrameGrid(f))|, false)
    requires steps == [DoPresent(f, 0, io, viewer), DoClose(io), DoPresent(g, 1, io, viewer), DoFire(0)]
    ensures exists z: World ::
      && Trace(World(NewSink(f.w, f.h, 10), t, None), steps, z) && Inv(z)
      && Enabled(z, DoCallback(0, 10, io)) && Output(z, DoCallback(0, 10, io)) != []
  {
    SizedBy(f.w, f.h);
    FreshWorld(f.w, f.h, 10, t);
    FirstFlush(f, t, io, viewer);
    hide FlushBytes, FrameGrid, Run, NewSink, Next, Inv, Output, ValidFrame;
    var x0 := World(NewSink(f.w, f.h, 10), t, None);
    var x1 := Next(x0, steps[0]);
    InvStep(x0, steps[0]);
    var x2 := Next(x1, steps[1]);
    InvStep(x1, steps[1]);
    CloseClean(x1, io);
    LatePresentPaints(x2, g, 1, io, viewer, 10, io);
    var x3 := Next(x2, steps[2]);
    var x4 := Next(x3, steps[3]);
    KnownKept(x2, g, 1, io, viewer);
    TraceOfFour(x0, steps[0], x1, steps[1], x2, steps[2], x3, steps[3], x4);
  }

  lemma TraceOfFour(x0: World, a: Step, x1: World, b: Step, x2: World, c: Step, x3: World, d: Step, x4: World)
    requires Inv(x0) && Enabled(x0, a) && x1 == Next(x0, a) && Inv(x1) && Enabled(x1, b) && x2 == Next(x1, b)
    requires Inv(x2) && Enabled(x2, c) && x3 == Next(x2, c) && Inv(x3) && Enabled(x3, d) && x4 == Next(x3, d)
    ensures Trace(x0, [a, b, c, d], x4)
  {
    hide Next, Enabled, Inv;
    assert Trace(x4, [], x4);
    assert [d][1..] == [] && Trace(x3, [d], x4);
    assert [c, d][1..] == [d] && Trace(x2, [c, d], x4);
    assert [b, c, d][1..] == [c, d] && Trace(x1, [b, c, d], x4);
    assert [a, b, c, d][1..] == [b, c, d];
  }

  lemma CloseClean(x: World, io: Io)
    requires Inv(x) && !x.sink.dirty && x.sink.timer == None
    ensures Next(x, DoClose(io)).sink == x.sink
  {
    hide FlushBytes, FrameGrid, Run;
  }

  lemma KnownKept(x: World, g: Frame, now: int, io: Io, viewer: Term)
    requires Inv(x) && ValidFrame(g) && g.w == x.sink.w && g.h == x.sink.h && !Allows(x.sink.thr, now)
    requires Inv(Next(x, DoPresent(g, now, io, viewer)))
    ensures Next(Next(x, DoPresent(g, now, io, viewer)), DoFire(x.sink.nextId)).sink.scr.was == x.sink.scr.was
  {
    hide FlushBytes, FrameGrid, Run;
  }

  lemma FirstFlush(f: Frame, t: Term, io: Io, viewer: Term)
    requires ValidFrame(f) && t.w == f.w && t.h == f.h && Inv(World(NewSink(f.w, f.h, 10), t, None))
    requires io == Io(|FlushBytes(NewSink(f.w, f.h, 10).scr.was, FrameGrid(f))|, false)
    ensures var s := Next(World(NewSink(f.w, f.h, 10), t, None), DoPresent(f, 0, io, viewer)).sink;
      && s.scr.was == FrameGrid(f) && s.thr == Throttle(10, Some(0)) && s.timer == None && !s.dirty && s.nextId == 0
      && s.w == f.w && s.h == f.h
  {
    var s := NewSink(f.w, f.h, 10);
    LoadedIsSized(s, f);
    EmptyFlush(s.scr.was, FrameGrid(f));
    hide FlushBytes, FrameGrid, Run, Resized;
  }

  lemma FreshWorld(w: int, h: int, min: nat, t: Term)
    requires t.w == NewSink(w, h, min).scr.w && t.h == NewSink(w, h, min).scr.h
    ensures Inv(World(NewSink(w, h, min), t, None))
    ensures var s := NewSink(w, h, min); s.thr == Throttle(min, None) && s.timer == None && s.fired == {} && s.nextId == 0
  {
    hide Resized;
    assert WellSized(Resized(w, h, false)) && Clean(Resized(w, h, false).cur);
    SizedBy(w, h);
  }

  lemma SizedBy(w: int, h: int)
    ensures 1 <= w <= MAX_WIDTH && 1 <= h <= MAX_HEIGHT ==> Resized(w, h, false).w == w && Resized(w, h, false).h == h
  {
  }

  // ----- repainting after a failed write

  /**
   A flush of `f` has failed and `f` has been the only frame since: unchanged cells
   are right, and the screen reports itself healthy only once it knows all of `f`.
   */
  ghost predicate Recovering(x: World, f: Frame) {
    var s := x.sink;
    && Inv(x) && x.last == Some(f)
    && ShowsKept(x.term, s.scr.was, s.scr.cur)
    && (s.scr.failed || s.scr.was == s.scr.cur)
  }

  predicate OnlyPresents(st: Step, f: Frame) {
    st.DoPresent? && ValidFrame(st.f) ==> st.f == f
  }

  /** A flush from any prefix-complete state keeps recovery going, whether it fails or not. */
  lemma FlushKeepsRecovering(t: Term, scr: ScreenState, io: Io)
    requires WellSized(scr) && Clean(scr.cur) && t.w == scr.w && t.h == scr.h && ShowsKept(t, scr.was, scr.cur)
    requires io.n <= |FlushBytes(scr.was, scr.cur)|
    ensures var r := Run(t, Sent(io, FlushBytes(scr.was, scr.cur)));
            var u := Flushed(scr, io.n, io.err);
            && ShowsKept(r, u.was, u.cur)
            && ((FlushBytes(scr.was, scr.cur) != [] || scr.failed) ==> u.failed || u.was == u.cur)
            && (scr.was == scr.cur ==> u == scr)
  {
    var b := FlushBytes(scr.was, scr.cur);
    EmptyFlush(scr.was, scr.cur);
    TornFlushKeeps(t, scr.was, scr.cur, io.n);
    if b != [] && !(io.err || io.n != |b|) {
      assert Sent(io, b) == b;
      FlushCompletes(t, scr.was, scr.cur);
      ShownIsKept(Run(t, b), scr.cur);
    }
  }

  lemma ShownIsKept(t: Term, g: Grid)
    requires Shows(t, g)
    ensures ShowsKept(t, g, g)
  {
  }

  /** A write cut short, from a state in which the terminal agreed with the sink, starts a recovery. */
  lemma FailureStartsRecovery(x: World, st: Step)
    requires Inv(x) && Synced(x) && Enabled(x, st) && (st.DoPresent? || x.last.Some?)
    requires Output(x, st) != [] && IoOf(st).n <= |Output(x, st)|
    ensures Recovering(Next(x, st), Next(x, st).last.value)
  {
    hide Run, FlushBytes, FrameGrid, ShowsKnown, ShowsKept;
    InvStep(x, st);
    match st
    case DoPresent(f, now, io, viewer) =>
      LoadedIsSized(x.sink, f);
      var u := Loaded(x.sink, f);
      var t := if f.w != x.sink.w || f.h != x.sink.h then viewer else x.term;
      assert ShowsKnown(t, u.scr.was) by {
        if f.w != x.sink.w || f.h != x.sink.h {
          BlankIsKnown(t, u.scr.was);
        }
      }
      KnownIsKept(t, u.scr.was, u.scr.cur);
      FlushKeepsRecovering(t, u.scr, io);
    case DoCallback(id, now, io) =>
      KnownIsKept(x.term, x.sink.scr.was, x.sink.scr.cur);
      FlushKeepsRecovering(x.term, x.sink.scr, io);
    case DoClose(io) =>
      KnownIsKept(x.term, x.sink.scr.was, x.sink.scr.cur);
      FlushKeepsRecovering(x.term, x.sink.scr, io);
  }

  lemma RecoveringStep(x: World, st: Step, f: Frame)
    requires Recovering(x, f) && Enabled(x, st) && OnlyPresents(st, f)
    requires IoOf(st).n <= |Output(x, st)|
    ensures Recovering(Next(x, st), f)
  {
    hide Run, FlushBytes, FrameGrid, ShowsKept;
    InvStep(x, st);
    var scr := x.sink.scr;
    RunNothing(x.term);
    match st
    case DoPresent(g, now, io, viewer) =>
      assert Loaded(x.sink, f).scr == scr;
      if ValidFrame(g) && Allows(x.sink.thr, now) {
        EmptyFlush(scr.was, scr.cur);
        FlushKeepsRecovering(x.term, scr, io);
      }
    case DoFire(id) =>
    case DoCallback(id, now, io) =>
      if x.sink.dirty {
        EmptyFlush(scr.was, scr.cur);
        FlushKeepsRecovering(x.term, scr, io);
      }
    case DoClose(io) =>
      if x.sink.dirty {
        EmptyFlush(scr.was, scr.cur);
        FlushKeepsRecovering(x.term, scr, io);
      }
  }

  /** Only `f` is presented in the run, and no write claims more bytes than it was given. */
  ghost predicate Repeats(x: World, steps: seq<Step>, f: Frame)
    decreases |steps|
  {
    steps == [] ||
    (Inv(x) && OnlyPresents(steps[0], f) && IoOf(steps[0]).n <= |Output(x, steps[0])|
     && Repeats(Next(x, steps[0]), steps[1..], f))
  }

  /**
   However many writes fail while the same frame is presented again, once the sink
   reports itself healthy every cell of the terminal is right.
   */
  lemma {:induction false} HealthyMeansHealed(x: World, steps: seq<Step>, z: World, f: Frame)
    requires Recovering(x, f) && Trace(x, steps, z) && Repeats(x, steps, f)
    ensures !z.sink.scr.failed ==> Shows(z.term, FrameGrid(f))
    decreases |steps|
  {
    if steps == [] {
      if !x.sink.scr.failed {
        KeptIsShown(x.term, x.sink.scr.cur);
      }
    } else {
      RecoveringStep(x, steps[0], f);
      HealthyMeansHealed(Next(x, steps[0]), steps[1..], z, f);
    }
  }

  lemma KeptIsShown(t: Term, g: Grid)
    requires ShowsKept(t, g, g)
    ensures Shows(t, g)
  {
  }

  // ----- another frame after a failed write

  /** Frames that reach the flush without a resize: the sink's own size, and late enough. */
  ghost predicate BackToBack(x: World, f: Frame, now: int, g: Frame, later: int) {
    && Inv(x) && ValidFrame(f) && ValidFrame(g) && f.w == g.w == x.sink.w && f.h == g.h == x.sink.h
    && Allows(x.sink.thr, now) && Allows(x.sink.thr.(last := Some(now)), later)
  }

  /** `f` presented with a write that fails after `n` bytes, then `g` with a write that goes through. */
  ghost function TornThen(x: World, f: Frame, now: int, n: nat, g: Frame, later: int, viewer: Term): (z: World)
    requires BackToBack(x, f, now, g, later)
  {
    LoadedIsSized(x.sink, f);
    var a := Next(x, DoPresent(f, now, Io(n, true), viewer));
    LoadedIsSized(a.sink, g);
    Next(a, DoPresent(g, later, Io(|FlushBytes(x.sink.scr.was, FrameGrid(g))|, false), viewer))
  }

  lemma TornThenEffect(x: World, f: Frame, now: int, n: nat, g: Frame, later: int, viewer: Term)
    requires BackToBack(x, f, now, g, later) && n <= |FlushBytes(x.sink.scr.was, FrameGrid(f))|
    ensures var z := TornThen(x, f, now, n, g, later, viewer); var was := x.sink.scr.was;
      && z.term == Run(Run(x.term, FlushBytes(was, FrameGrid(f))[..n]), FlushBytes(was, FrameGrid(g)))
      && z.last == Some(g)
      && (FlushBytes(was, FrameGrid(f)) != [] ==> (z.sink.scr.failed <==> FlushBytes(was, FrameGrid(g)) == []))
  {
    hide Run, FlushBytes, FrameGrid;
    LoadedIsSized(x.sink, f);
    var a := Next(x, DoPresent(f, now, Io(n, true), viewer));
    assert a.sink.scr.was == x.sink.scr.was && a.sink.w == g.w && a.sink.h == g.h;
    LoadedIsSized(a.sink, g);
    var b := FlushBytes(x.sink.scr.was, FrameGrid(g));
    assert Sent(Io(|b|, false), b) == b;
    RunNothing(x.term);
    RunNothing(a.term);
  }

  /**
   Presenting another frame after a failed write shows it, wherever the write was cut, if and
   only if no cell visibly goes back to what it was before.
   */
  lemma AnotherFrameHealsIff(x: World, f: Frame, now: int, g: Frame, later: int, viewer: Term)
    requires BackToBack(x, f, now, g, later) && Synced(x)
    ensures Rect(x.sink.scr.was, f.w, f.h)
    ensures (forall n: nat :: n <= |FlushBytes(x.sink.scr.was, FrameGrid(f))| ==>
               Shows(TornThen(x, f, now, n, g, later, viewer).term, FrameGrid(g)))
            <==> NoVisibleRevert(x.sink.scr.was, FrameGrid(f), FrameGrid(g), f.w, f.h)
  {
    var was, a, b := x.sink.scr.was, FrameGrid(f), FrameGrid(g);
    SameSize(x, f);
    SameSize(x, g);
    var bs := FlushBytes(was, a);
    hide Run, FlushBytes, FrameGrid, TornThen, Shows, ShowsKnown, Clean, Inv;
    if NoVisibleRevert(was, a, b, f.w, f.h) {
      forall n: nat | n <= |bs| ensures Shows(TornThen(x, f, now, n, g, later, viewer).term, b) {
        TornThenEffect(x, f, now, n, g, later, viewer);
        SwitchHeals(x.term, was, a, b, n);
      }
    } else {
      var i: nat, j: nat :| j < f.h && i < f.w && b[j][i] == was[j][i] && Look(a[j][i]) != Look(was[j][i]);
      SwitchFails(x.term, was, a, b, i, j);
      TornThenEffect(x, f, now, |bs|, g, later, viewer);
      assert bs[..|bs|] == bs;
    }
  }

  /** Right or wrong, the sink reports itself healthy whenever the new frame differs at all from the one before the failure. */
  lemma AnotherFrameHealthyIff(x: World, f: Frame, now: int, n: nat, g: Frame, later: int, viewer: Term)
    requires BackToBack(x, f, now, g, later) && FrameGrid(f) != x.sink.scr.was && n <= |FlushBytes(x.sink.scr.was, FrameGrid(f))|
    ensures !TornThen(x, f, now, n, g, later, viewer).sink.scr.failed <==> FrameGrid(g) != x.sink.scr.was
  {
    SameSize(x, f);
    EmptyFlush(x.sink.scr.was, FrameGrid(f));
    EmptyFlush(x.sink.scr.was, FrameGrid(g));
    hide FlushBytes, FrameGrid, TornThen;
    TornThenEffect(x, f, now, n, g, later, viewer);
  }

  lemma SameSize(x: World, f: Frame)
    requires Inv(x) && ValidFrame(f) && f.w == x.sink.w && f.h == x.sink.h
    ensures x.term.w == f.w && x.term.h == f.h && Rect(x.sink.scr.was, f.w, f.h) && Rect(FrameGrid(f), f.w, f.h) && Clean(FrameGrid(f))
  {
    hide FrameGrid;
  }

  // ----- the sink object

  /** Rows `[0, y)` of the frame over the rest of an older grid. */
  function Partly(f: Frame, g: Grid, y: nat): (r: Grid)
    requires ValidFrame(f) && Rect(g, f.w, f.h) && y <= f.h
  {
    FrameGrid(f)[..y] + g[y..]
  }

  lemma PartlyStep(f: Frame, g: Grid, y: nat)
    requires ValidFrame(f) && Rect(g, f.w, f.h) && y < f.h
    ensures |Partly(f, g, y)| == f.h && Partly(f, g, y)[y := SanitizedRow(f, y)] == Partly(f, g, y + 1)
  {
    hide SanitizedRow;
  }

  /** The sanitizing row loop of `Present`. */
  method LoadRows(scr: ScreenBuffer, f: Frame)
    requires ValidFrame(f) && WellSized(scr.View()) && scr.w == f.w && scr.h == f.h
    modifies scr
    ensures scr.View() == old(scr.View()).(cur := FrameGrid(f))
  {
    hide FrameGrid, SanitizedRow;
    ghost var start := scr.View();
    assert Partly(f, start.cur, 0) == start.cur;
    for y := 0 to f.h
      invariant scr.View() == start.(cur := Partly(f, start.cur, y)) && WellSized(scr.View())
    {
      PartlyStep(f, start.cur, y);
      scr.SetRow(y, SanitizedRow(f, y));
    }
    assert Partly(f, start.cur, f.h) == FrameGrid(f);
  }

  class TtySink {
    const scr: ScreenBuffer
    var w: int
    var h: int
    var thr: Throttle
    var dirty: bool
    var timer: Option<nat>
    var armed: set<nat>
    var fired: set<nat>
    var nextId: nat

    ghost function View(): (s: Sink)
      reads this, scr
    {
      Sink(scr.View(), w, h, thr, dirty, timer, armed, fired, nextId)
    }

    ghost predicate Valid()
      reads this, scr
    {
      WellSized(scr.View()) && SizeTracked(View())
    }

    constructor (width: int, height: int, min: nat)
      ensures Valid() && fresh(scr) && View() == NewSink(width, height, min)
    {
      scr := new ScreenBuffer(width, height);
      w, h, thr, dirty := width, height, Throttle(min, None), false;
      timer, armed, fired, nextId := None, {}, {}, 0;
    }

    method Healthy() returns (ok: bool)
      ensures ok == !scr.failed
    {
      ok := !scr.failed;
    }

    method PresentFrame(f: Frame, now: int, io: Io) returns (b: bytes)
      requires Valid()
      modifies this, scr
      ensures (View(), b) == Present(old(View()), f, now, io)
    {
      b := [];
      if !ValidFrame(f) {
        return;
      }
      LoadFrame(f);
      if Allows(thr, now) {
        thr := Allowed(thr, now);
        if timer.Some? {
          armed := armed - {timer.value};
          timer := None;
        }
        dirty := false;
        b := scr.Flush(io.n, io.err);
        return;
      }
      dirty := true;
      if timer.None? {
        timer, armed, nextId := Some(nextId), armed + {nextId}, nextId + 1;
      }
    }

    /** Resize if needed, then sanitize and copy row by row. */
    method LoadFrame(f: Frame)
      requires Valid() && ValidFrame(f)
      modifies this, scr
      ensures View() == Loaded(old(View()), f) && Valid()
    {
      LoadedIsSized(View(), f);
      if f.w != w || f.h != h {
        scr.Resize(f.w, f.h);
        w, h := f.w, f.h;
      }
      LoadRows(scr, f);
    }

    /** The body of the delayed callback of timer `id`. */
    method RunCallback(id: nat, now: int, io: Io) returns (b: bytes)
      requires Valid() && id in fired
      modifies this, scr
      ensures (View(), b) == Callback(old(View()), id, now, io)
    {
      b := [];
      fired := fired - {id};
      timer := None;
      if !dirty {
        return;
      }
      dirty := false;
      thr := Allowed(thr, now);
      b := scr.Flush(io.n, io.err);
    }

    method CloseSink(io: Io) returns (b: bytes)
      requires Valid()
      modifies this, scr
      ensures (View(), b) == Close(old(View()), io)
    {
      b := [];
      if timer.Some? {
        armed := armed - {timer.value};
        timer := None;
      }
      if dirty {
        dirty := false;
        b := scr.Flush(io.n, io.err);
      }
    }
  }
}
