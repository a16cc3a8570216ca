/**
 Duplicate suppression in front of the sink: a frame byte-identical to the last
 one presented is skipped while the screen is healthy.
 */
module Dedup {
  import opened Results
  import opened Bytes
  import opened Abi
  import opened Terminal
  import opened Screen
  import opened TtySink
  import Wire

  /** `frameDedup` plus the sink it guards. `last` is empty until a frame is presented. */
  datatype Session = Session(last: bytes, world: World)

  datatype Reply = Accepted | Fault

  predicate Suppressed(x: Session, raw: bytes) {
    |raw| == |x.last| && raw == x.last && !x.world.sink.scr.failed
  }

  /** One present request; `viewer` as in the sink's own step. */
  datatype Request = Request(raw: bytes, now: int, io: Io, viewer: Term)

  /** The request without suppression: decode, then present. */
  ghost function Plain(x: World, r: Request): (p: (World, Reply))
    requires Inv(x)
  {
    match Wire.DecodeFrame(r.raw)
    case None => (x, Fault)
    case Some(f) => (Next(x, DoPresent(f, r.now, r.io, r.viewer)), Accepted)
  }

  /** The request as served: suppressed, or decoded, observed and presented. */
  ghost function Served(x: Session, r: Request): (p: (Session, Reply))
    requires Inv(x.world)
  {
    if Suppressed(x, r.raw) then (x, Accepted)
    else match Wire.DecodeFrame(r.raw)
      case None => (x, Fault)
      case Some(_) => (Session(r.raw, Plain(x.world, r).0), Accepted)
  }

  /** The frame of the remembered bytes is the one held in the current grid. */
  ghost predicate Remembers(x: Session) {
    && Inv(x.world)
    && (x.last == [] ==> x.world.last.None?)
    && (x.last != [] ==> Wire.DecodeFrame(x.last).Some? && x.world.last == Some(Wire.DecodeFrame(x.last).value))
  }

  ghost predicate ViewerFits(r: Request) {
    var f := Wire.DecodeFrame(r.raw);
    f.Some? ==> r.viewer.w == f.value.w && r.viewer.h == f.value.h
  }

  lemma ServedRemembers(x: Session, r: Request)
    requires Remembers(x) && ViewerFits(r)
    ensures Remembers(Served(x, r).0)
  {
    hide FrameGrid, Run, Next, Inv;
    if !Suppressed(x, r.raw) && Wire.DecodeFrame(r.raw).Some? {
      var st := DoPresent(Wire.DecodeFrame(r.raw).value, r.now, r.io, r.viewer);
      EnabledPresent(x.world, r);
      InvStep(x.world, st);
      PresentRecords(x.world, st);
    }
  }

  lemma EnabledPresent(x: World, r: Request)
    requires Inv(x) && ViewerFits(r) && Wire.DecodeFrame(r.raw).Some?
    ensures Enabled(x, DoPresent(Wire.DecodeFrame(r.raw).value, r.now, r.io, r.viewer))
  {
  }

  lemma PresentRecords(x: World, st: Step)
    requires Inv(x) && st.DoPresent? && ValidFrame(st.f)
    ensures Next(x, st).last == Some(st.f)
  {
  }

  /** Skipping a remembered frame leaves the wanted grid exactly as presenting it again would. */
  lemma SuppressedHoldsSameGrid(x: Session, r: Request)
    requires Remembers(x) && ViewerFits(r) && Suppressed(x, r.raw) && r.raw != []
    ensures Plain(x.world, r).1 == Accepted
    ensures Plain(x.world, r).0.sink.scr.cur == x.world.sink.scr.cur
    ensures Plain(x.world, r).0.last == x.world.last
  {
    hide FrameGrid, Run, Wire.DecodeFrame;
  }

  /**
   The reply differs from the unsuppressed one in exactly one case: an empty payload
   before any frame, which equals the empty initial memory and is accepted.
   */
  lemma ReplyExact(x: Session, r: Request)
    requires Remembers(x)
    ensures Served(x, r).1 == Plain(x.world, r).1 <==>
            !(r.raw == [] && x.last == [] && !x.world.sink.scr.failed)
  {
    hide Next;
    assert Wire.DecodeFrame([]).None?;
  }

  // ----- whole sessions

  /** A request, or something the runtime does on its own. */
  datatype SessionStep = Ask(r: Request) | Env(st: Step)

  ghost predicate StepOk(x: World, st: SessionStep) {
    match st
    case Ask(r) => ViewerFits(r)
    case Env(e) => (e.DoFire? || e.DoCallback?) && Enabled(x, e)
  }

  /** One step of a session, with or without suppression. */
  ghost function Move(x: Session, st: SessionStep, dedup: bool): (p: (Session, Reply))
    requires Inv(x.world)
  {
    match st
    case Ask(r) =>
      if dedup then Served(x, r)
      else var p := Plain(x.world, r); (Session(if p.1.Accepted? then r.raw else x.last, p.0), p.1)
    case Env(e) => (Session(x.last, Next(x.world, e)), Accepted)
  }

  /** The write, if any, that the step makes succeeds. */
  ghost predicate StepWritten(x: World, st: SessionStep)
    requires Inv(x)
  {
    match st
    case Ask(r) =>
      var f := Wire.DecodeFrame(r.raw);
      f.Some? ==> var p := DoPresent(f.value, r.now, r.io, r.viewer);
                  Successful(r.io, Output(x, p)) || Output(x, p) == []
    case Env(e) => Successful(IoOf(e), Output(x, e)) || Output(x, e) == []
  }

  /** A session in which every request is accepted and every write succeeds. */
  ghost predicate SessionTrace(x: Session, steps: seq<SessionStep>, dedup: bool, z: Session)
    decreases |steps|
  {
    if steps == [] then x == z
    else
      && Inv(x.world) && StepOk(x.world, steps[0]) && StepWritten(x.world, steps[0])
      && Move(x, steps[0], dedup).1.Accepted?
      && SessionTrace(Move(x, steps[0], dedup).0, steps[1..], dedup, z)
  }

  function Raws(steps: seq<SessionStep>): (rs: seq<bytes>) {
    if steps == [] then []
    else (if steps[0].Ask? then [steps[0].r.raw] else []) + Raws(steps[1..])
  }

  lemma MoveKeeps(x: Session, st: SessionStep, dedup: bool)
    requires Remembers(x) && Synced(x.world) && StepOk(x.world, st) && StepWritten(x.world, st)
    requires Move(x, st, dedup).1.Accepted? && (st.Ask? ==> st.r.raw != [])
    ensures var y := Move(x, st, dedup).0;
            && Remembers(y) && Synced(y.world)
            && y.last == if st.Ask? then st.r.raw else x.last
  {
    hide FrameGrid, Run, Next, Inv, Synced, Wire.DecodeFrame, Output;
    match st
    case Ask(r) =>
      if dedup && Suppressed(x, r.raw) {
      } else {
        var p := DoPresent(Wire.DecodeFrame(r.raw).value, r.now, r.io, r.viewer);
        EnabledPresent(x.world, r);
        InvStep(x.world, p);
        SyncedStep(x.world, p);
        PresentRecords(x.world, p);
      }
    case Env(e) =>
      InvStep(x.world, e);
      SyncedStep(x.world, e);
      EnvKeepsLast(x.world, e);
  }

  lemma EnvKeepsLast(x: World, e: Step)
    requires Inv(x) && (e.DoFire? || e.DoCallback?)
    ensures Next(x, e).last == x.last
  {
  }

  /** The bytes remembered after a session that started by remembering `init`. */
  function LastRaw(steps: seq<SessionStep>, init: bytes): (raw: bytes) {
    if steps == [] then init
    else LastRaw(steps[1..], if steps[0].Ask? then steps[0].r.raw else init)
  }

  lemma {:induction false} LastRawIsLast(steps: seq<SessionStep>, init: bytes)
    ensures LastRaw(steps, init) == if Raws(steps) == [] then init else Raws(steps)[|Raws(steps)| - 1]
    decreases |steps|
  {
    if steps != [] {
      LastRawIsLast(steps[1..], if steps[0].Ask? then steps[0].r.raw else init);
    }
  }

  ghost predicate NoEmptyRaw(steps: seq<SessionStep>) {
    forall i :: 0 <= i < |steps| && steps[i].Ask? ==> steps[i].r.raw != []
  }

  lemma {:induction false} SessionKeeps(x: Session, steps: seq<SessionStep>, dedup: bool, z: Session)
    requires Remembers(x) && Synced(x.world) && SessionTrace(x, steps, dedup, z) && NoEmptyRaw(steps)
    ensures Remembers(z) && Synced(z.world) && z.last == LastRaw(steps, x.last)
    decreases |steps|
  {
    hide Remembers, Synced, Move, Inv, StepOk, StepWritten;
    if steps != [] {
      MoveKeeps(x, steps[0], dedup);
      SessionKeeps(Move(x, steps[0], dedup).0, steps[1..], dedup, z);
    }
  }

  /** A session at rest shows the frame it remembers. */
  lemma RestShowsRemembered(z: Session)
    requires Remembers(z) && Synced(z.world) && Quiescent(z.world.sink) && z.last != []
    ensures var f := Wire.DecodeFrame(z.last); f.Some? && Shows(z.world.term, FrameGrid(f.value))
  {
    hide Wire.DecodeFrame, FrameGrid;
    KnownIsShown(z.world.term, z.world.sink.scr.was);
  }

  /**
   Suppression is invisible: fed the same frames, with any timing and any callbacks
   of their own, a suppressing and a non-suppressing session end, once nothing is
   outstanding, with terminals that show the same grid, that of the last frame.
   */
  lemma SuppressionInvisible(x: Session, a: seq<SessionStep>, za: Session, b: seq<SessionStep>, zb: Session)
    requires Remembers(x) && Synced(x.world)
    requires SessionTrace(x, a, true, za) && SessionTrace(x, b, false, zb)
    requires NoEmptyRaw(a) && NoEmptyRaw(b) && Raws(a) == Raws(b) != []
    requires Quiescent(za.world.sink) && Quiescent(zb.world.sink)
    ensures var f := Wire.DecodeFrame(Raws(a)[|Raws(a)| - 1]);
            f.Some? && Shows(za.world.term, FrameGrid(f.value)) && Shows(zb.world.term, FrameGrid(f.value))
  {
    hide Remembers, Synced, SessionTrace, Wire.DecodeFrame, FrameGrid, Shows;
    SessionKeeps(x, a, true, za);
    SessionKeeps(x, b, false, zb);
    LastRawIsLast(a, x.last);
    LastRawIsLast(b, x.last);
    assert za.last == zb.last == Raws(a)[|Raws(a)| - 1];
    LastRawNonEmpty(a, x.last);
    RestShowsRemembered(za);
    RestShowsRemembered(zb);
  }

  /**
   From the guest's bytes to the viewer's screen: once a session, suppressing or not, is at
   rest, the cell in column `i` of row `j` looks as the eleven bytes of that cell in the last
   payload say.
   */
  lemma {:induction false} LastBytesShown(x: Session, steps: seq<SessionStep>, dedup: bool, z: Session, i: nat, j: nat)
    requires Remembers(x) && Synced(x.world) && SessionTrace(x, steps, dedup, z) && NoEmptyRaw(steps)
    requires Raws(steps) != [] && Quiescent(z.world.sink)
    ensures PayloadShown(z.world.term, Raws(steps)[|Raws(steps)| - 1], i, j)
  {
    hide *;
    var f := LastFrameShown(x, steps, dedup, z);
    BytesOnScreen(z.world.term, Raws(steps)[|Raws(steps)| - 1], f, i, j);
  }

  lemma {:induction false} LastFrameShown(x: Session, steps: seq<SessionStep>, dedup: bool, z: Session) returns (f: Frame)
    requires Remembers(x) && Synced(x.world) && SessionTrace(x, steps, dedup, z) && NoEmptyRaw(steps)
    requires Raws(steps) != [] && Quiescent(z.world.sink)
    ensures Wire.DecodeFrame(Raws(steps)[|Raws(steps)| - 1]) == Some(f) && ShowsFrame(z.world.term, f)
  {
    hide Remembers, Synced, SessionTrace, Wire.DecodeFrame, FrameGrid, Shows, ShowsFrame;
    SessionKeeps(x, steps, dedup, z);
    LastRawIsLast(steps, x.last);
    LastRawNonEmpty(steps, x.last);
    RestShowsRemembered(z);
    f := Wire.DecodeFrame(z.last).value;
    GridIsFrame(z.world.term, f);
  }

  /** Where the bytes of a cell begin in a payload `w` cells wide. */
  function OffsetOf(w: nat, i: nat, j: nat): (o: nat) {
    8 + 11 * (j * w + i)
  }

  ghost predicate CellShown(t: Term, raw: bytes, o: nat, i: nat, j: nat) {
    && o + 11 <= |raw| && Pos(i, j) in t.grid
    && Renders(t.grid[Pos(i, j)], Cell(Wire.Int32At(raw, o), Rgb(raw[o + 4], raw[o + 5], raw[o + 6]),
                                       Rgb(raw[o + 7], raw[o + 8], raw[o + 9]), raw[o + 10]))
  }

  /** Of a payload of `w` by `h` cells after eight bytes, the cell in column `i` of row `j`, if there is one, is shown there. */
  ghost predicate PayloadShown(t: Term, raw: bytes, i: nat, j: nat) {
    && |raw| >= 8
    && var w, h := Wire.U16At(raw, 4), Wire.U16At(raw, 6);
       |raw| == 8 + 11 * (w * h) && (i < w && j < h ==> CellShown(t, raw, OffsetOf(w, i, j), i, j))
  }

  lemma BytesOnScreen(t: Term, raw: bytes, f: Frame, i: nat, j: nat)
    requires Wire.DecodeFrame(raw) == Some(f) && ShowsFrame(t, f)
    ensures PayloadShown(t, raw, i, j)
  {
    Wire.FrameHeader(raw, f);
    hide Wire.DecodeFrame, Renders, Wire.Int32At, Wire.U16At;
    if i < f.w && j < f.h {
      InFrame(f.w, f.h, i, j);
      assert OffsetOf(f.w, i, j) == 8 + 11 * (j * f.w + i);
      hide OffsetOf;
      Wire.FrameBytes(raw, f, j * f.w + i);
    }
  }

  lemma {:induction false} LastRawNonEmpty(steps: seq<SessionStep>, init: bytes)
    requires NoEmptyRaw(steps) && (Raws(steps) != [] || init != [])
    ensures LastRaw(steps, init) != []
    decreases |steps|
  {
    if steps != [] {
      LastRawNonEmpty(steps[1..], if steps[0].Ask? then steps[0].r.raw else init);
    }
  }

  /** While a write has failed, nothing is suppressed: the same frame is painted again. */
  lemma UnhealthyNeverSuppresses(x: Session, r: Request)
    requires Remembers(x) && x.world.sink.scr.failed && ViewerFits(r)
    ensures !Suppressed(x, r.raw)
    ensures r.raw == x.last && r.raw != [] ==>
              Served(x, r).0.world == Next(x.world, DoPresent(x.world.last.value, r.now, r.io, r.viewer))
  {
  }

  /** The input behind `ReplyExact`: a new session accepts an empty payload that no decoder would. */
  lemma EmptyPayloadAccepted()
    ensures var t := Term(80, 24, map[], Lost, PLAIN, Ground);
      var x := Session([], World(NewSink(80, 24, 0), t, None)); var r := Request([], 0, Io(0, false), t);
      Remembers(x) && Served(x, r).1 == Accepted && Plain(x.world, r).1 == Fault
  {
    var t := Term(80, 24, map[], Lost, PLAIN, Ground);
    SizedBy(80, 24);
    FreshWorld(80, 24, 0, t);
    hide Inv;
  }

  // ----- what suppression does to a cell left wrong

  /**
   A write of one frame fails, another goes through and takes some cell visibly back: the sink
   is healthy, the cell is wrong, and presenting that frame again changes nothing: every
   repeat is suppressed, so the cell stays wrong.
   */
  lemma {:induction false} WrongCellStays(x: Session, rf: Request, f: Frame, rg: Request, g: Frame, i: nat, j: nat)
    requires Remembers(x) && Synced(x.world) && !Suppressed(x, rf.raw) && rf.viewer == rg.viewer
    requires Wire.DecodeFrame(rf.raw) == Some(f) && Wire.DecodeFrame(rg.raw) == Some(g)
    requires BackToBack(x.world, f, rf.now, g, rg.now) && rf.viewer.w == f.w && rf.viewer.h == f.h
    requires rf.io == Io(|FlushBytes(x.world.sink.scr.was, FrameGrid(f))|, true)
    requires rg.io == Io(|FlushBytes(x.world.sink.scr.was, FrameGrid(g))|, false)
    requires Rect(x.world.sink.scr.was, f.w, f.h) && j < f.h && i < f.w && FrameGrid(g)[j][i] == x.world.sink.scr.was[j][i]
    requires Look(FrameGrid(f)[j][i]) != Look(x.world.sink.scr.was[j][i]) && FrameGrid(g) != x.world.sink.scr.was
    ensures var a := Served(x, rf).0;
      && Inv(a.world)
      && var y := Served(a, rg).0;
         && Inv(y.world) && !y.world.sink.scr.failed && !Shows(y.world.term, FrameGrid(g))
         && forall r: Request :: r.raw == rg.raw ==> Served(y, r) == (y, Accepted)
  {
    var w, was := x.world, x.world.sink.scr.was;
    var bs := FlushBytes(was, FrameGrid(f));
    SameSize(w, f);
    SameSize(w, g);
    SwitchFails(w.term, was, FrameGrid(f), FrameGrid(g), i, j);
    TornThenEffect(w, f, rf.now, |bs|, g, rg.now, rf.viewer);
    AnotherFrameHealthyIff(w, f, rf.now, |bs|, g, rg.now, rf.viewer);
    assert bs[..|bs|] == bs;
    FailedIsUnhealthy(w, f, rf.now, rf.viewer);
    FitsBoth(x, rf, f, rg, g);
    hide FlushBytes, FrameGrid, Run, Shows, Inv, BackToBack, Wire.DecodeFrame;
    var a := Served(x, rf).0;
    var y := Served(a, rg).0;
    assert y.world == TornThen(w, f, rf.now, |bs|, g, rg.now, rf.viewer);
  }

  lemma FailedIsUnhealthy(w: World, f: Frame, now: int, viewer: Term)
    requires Inv(w) && ValidFrame(f) && f.w == w.sink.w && f.h == w.sink.h && Allows(w.sink.thr, now) && FrameGrid(f) != w.sink.scr.was
    ensures var n := |FlushBytes(w.sink.scr.was, FrameGrid(f))|;
      Next(w, DoPresent(f, now, Io(n, true), viewer)).sink.scr.failed
  {
    SameSize(w, f);
    EmptyFlush(w.sink.scr.was, FrameGrid(f));
    hide FlushBytes, FrameGrid, Run;
  }

  /** Both requests keep the sink's invariant. */
  lemma FitsBoth(x: Session, rf: Request, f: Frame, rg: Request, g: Frame)
    requires Remembers(x) && !Suppressed(x, rf.raw) && rf.viewer == rg.viewer
    requires Wire.DecodeFrame(rf.raw) == Some(f) && Wire.DecodeFrame(rg.raw) == Some(g)
    requires rf.viewer.w == f.w == g.w && rf.viewer.h == f.h == g.h
    ensures Inv(Served(x, rf).0.world) && Inv(Served(Served(x, rf).0, rg).0.world)
  {
    hide Next, Inv, Wire.DecodeFrame;
    ServedRemembers(x, rf);
    ServedRemembers(Served(x, rf).0, rg);
  }
}
