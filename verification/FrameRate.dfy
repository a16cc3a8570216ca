/**
 The frame-rate cap of the sink. Every flush is logged with its time, every timer has the
 time it was armed for, the clock never runs back and no timer runs before it is due.
 Only the throttle, the dirty flag and the timers matter here, so runs of the sink are
 followed through that control part alone.
 */
module FrameRate {
  import opened Results
  import opened Abi
  import opened Terminal
  import opened Screen
  import opened TtySink

  // ----- the control part of the sink

  datatype Control = Control(thr: Throttle, dirty: bool, timer: Option<nat>, armed: set<nat>, fired: set<nat>, nextId: nat)

  function ControlOf(s: Sink): (c: Control) {
    Control(s.thr, s.dirty, s.timer, s.armed, s.fired, s.nextId)
  }

  function Stopped(c: Control): (r: Control) {
    if c.timer.Some? then c.(armed := c.armed - {c.timer.value}, timer := None) else c
  }

  function ControlNext(c: Control, st: Step): (r: Control) {
    match st
    case DoPresent(f, now, _, _) =>
      if !ValidFrame(f) then c
      else if Allows(c.thr, now) then Stopped(c).(thr := Allowed(c.thr, now), dirty := false)
      else if c.timer.Some? then c.(dirty := true)
      else c.(dirty := true, timer := Some(c.nextId), armed := c.armed + {c.nextId}, nextId := c.nextId + 1)
    case DoFire(id) => c.(armed := c.armed - {id}, fired := c.fired + {id})
    case DoCallback(id, now, _) =>
      var u := c.(fired := c.fired - {id}, timer := None);
      if c.dirty then u.(thr := Allowed(c.thr, now), dirty := false) else u
    case DoClose(_) => Stopped(c).(dirty := false)
  }

  /** The control part of a step does not depend on what is painted or written. */
  lemma ControlStep(x: World, st: Step)
    requires Inv(x)
    ensures ControlOf(Next(x, st).sink) == ControlNext(ControlOf(x.sink), st)
  {
    hide Run, FlushBytes, FrameGrid;
  }

  predicate Possible(c: Control, st: Step) {
    match st
    case DoFire(id) => id in c.armed
    case DoCallback(id, _, _) => id in c.fired
    case _ => true
  }

  /** Whether a step flushes: an allowed present, or dirty content at a callback or at close. */
  predicate Flushes(c: Control, st: Step) {
    match st
    case DoPresent(f, now, _, _) => ValidFrame(f) && Allows(c.thr, now)
    case DoFire(_) => false
    case DoCallback(_, _, _) => c.dirty
    case DoClose(_) => c.dirty
  }

  /** Every byte the sink hands to its writer belongs to such a flush. */
  lemma OutputIsFlushed(x: World, st: Step)
    requires Inv(x) && Output(x, st) != []
    ensures Flushes(ControlOf(x.sink), st)
  {
    hide FlushBytes, FrameGrid;
  }

  // ----- the clock

  datatype Clock = Clock(now: int, due: map<nat, int>, flushes: seq<int>)

  /** `remaining`: how long until the throttle allows the next flush. */
  function Remaining(thr: Throttle, now: int): (d: int) {
    if thr.min == 0 || thr.last.None? then 0
    else if thr.min - (now - thr.last.value) < 0 then 0
    else thr.min - (now - thr.last.value)
  }

  datatype Event = Event(st: Step, at: int)

  /** The step happens at its time: not before the last one, not before its timer is due, reading that clock. */
  predicate OnTime(k: Clock, e: Event) {
    && e.at >= k.now
    && match e.st
       case DoPresent(_, now, _, _) => now == e.at
       case DoFire(id) => id in k.due && e.at >= k.due[id]
       case DoCallback(_, now, _) => now == e.at
       case DoClose(_) => true
  }

  function Tick(c: Control, k: Clock, e: Event): (r: Clock) {
    Clock(e.at,
          if ControlNext(c, e.st).nextId > c.nextId then k.due[c.nextId := e.at + Remaining(c.thr, e.at)] else k.due,
          if Flushes(c, e.st) then k.flushes + [e.at] else k.flushes)
  }

  /** A run of the sink under the clock. */
  ghost predicate TimedRun(x: World, k: Clock, es: seq<Event>, z: World, kz: Clock)
    decreases |es|
  {
    if es == [] then x == z && k == kz
    else
      && Inv(x) && Enabled(x, es[0].st) && OnTime(k, es[0])
      && TimedRun(Next(x, es[0].st), Tick(ControlOf(x.sink), k, es[0]), es[1..], z, kz)
  }

  ghost predicate Spaced(flushes: seq<int>, min: nat) {
    forall i :: 0 <= i < |flushes| - 1 ==> flushes[i + 1] - flushes[i] >= min
  }

  // ----- when the cap holds

  /** No flush by a callback that is not the current timer's, and none by a close. */
  predicate Regular(c: Control, st: Step) {
    match st
    case DoCallback(id, _, _) => c.dirty ==> c.timer == Some(id)
    case DoClose(_) => !c.dirty
    case _ => true
  }

  /** The throttle remembers the last flush, and the current timer was armed for the end of its interval. */
  ghost predicate Capped(c: Control, k: Clock) {
    && c.thr.last == (if k.flushes == [] then None else Some(k.flushes[|k.flushes| - 1]))
    && (k.flushes != [] ==> k.flushes[|k.flushes| - 1] <= k.now)
    && (c.timer.Some? ==> c.timer.value in c.armed + c.fired && c.thr.last.Some?
                          && c.timer.value in k.due && k.due[c.timer.value] == c.thr.last.value + c.thr.min)
    && (forall id :: id in c.armed ==> id < c.nextId && id in k.due)
    && (forall id :: id in c.fired ==> id < c.nextId && id in k.due && k.due[id] <= k.now)
    && Spaced(k.flushes, c.thr.min)
  }

  lemma SpacedSnoc(flushes: seq<int>, at: int, min: nat)
    requires Spaced(flushes, min)
    ensures Spaced(flushes + [at], min) <==> flushes == [] || at - flushes[|flushes| - 1] >= min
  {
    var longer := flushes + [at];
    if flushes != [] {
      assert longer[|flushes|] - longer[|flushes| - 1] == at - flushes[|flushes| - 1];
    }
  }

  /** A regular flush is allowed: it comes no sooner than the interval after the last one. */
  lemma RegularIsAllowed(c: Control, k: Clock, e: Event)
    requires Capped(c, k) && Possible(c, e.st) && OnTime(k, e) && Regular(c, e.st) && Flushes(c, e.st)
    ensures Allows(c.thr, e.at) && !e.st.DoClose?
    ensures k.flushes == [] || e.at - k.flushes[|k.flushes| - 1] >= c.thr.min
  {
  }

  lemma CappedStep(c: Control, k: Clock, e: Event)
    requires Capped(c, k) && Possible(c, e.st) && OnTime(k, e) && Regular(c, e.st)
    ensures Capped(ControlNext(c, e.st), Tick(c, k, e))
  {
    hide Spaced;
    if Flushes(c, e.st) {
      RegularIsAllowed(c, k, e);
      SpacedSnoc(k.flushes, e.at, c.thr.min);
    }
  }

  /**
   After a regular run, one more step keeps the flushes an interval apart if and only if it
   is regular too, or does not flush, or flushes late enough by itself.
   */
  lemma EarlyIff(c: Control, k: Clock, e: Event)
    requires Capped(c, k) && Possible(c, e.st) && OnTime(k, e)
    ensures !Spaced(Tick(c, k, e).flushes, c.thr.min) <==>
      Flushes(c, e.st) && !Regular(c, e.st) && k.flushes != [] && e.at < k.flushes[|k.flushes| - 1] + c.thr.min
  {
    if Flushes(c, e.st) {
      SpacedSnoc(k.flushes, e.at, c.thr.min);
      if Regular(c, e.st) {
        RegularIsAllowed(c, k, e);
      }
    }
    hide Spaced;
  }

  ghost predicate AllRegular(x: World, es: seq<Event>)
    decreases |es|
  {
    es == [] || (Inv(x) && Regular(ControlOf(x.sink), es[0].st) && AllRegular(Next(x, es[0].st), es[1..]))
  }

  lemma {:induction false} CappedRun(x: World, k: Clock, es: seq<Event>, z: World, kz: Clock)
    requires TimedRun(x, k, es, z, kz) && AllRegular(x, es) && Capped(ControlOf(x.sink), k)
    ensures Capped(ControlOf(z.sink), kz)
    ensures z.sink.thr.min == x.sink.thr.min
    decreases |es|
  {
    hide Next, Capped, Regular, Tick, OnTime;
    if es != [] {
      var c := ControlOf(x.sink);
      ControlStep(x, es[0].st);
      EnabledIsPossible(x, es[0].st);
      CappedStep(c, k, es[0]);
      MinStays(c, es[0].st);
      CappedRun(Next(x, es[0].st), Tick(c, k, es[0]), es[1..], z, kz);
    }
  }

  lemma EnabledIsPossible(x: World, st: Step)
    requires Enabled(x, st)
    ensures Possible(ControlOf(x.sink), st)
  {
  }

  lemma MinStays(c: Control, st: Step)
    ensures ControlNext(c, st).thr.min == c.thr.min
  {
  }

  /**
   The cap: in every run of a new sink in which no stale callback and no close flushes, any
   two consecutive flushes are at least the frame interval apart.
   */
  lemma RateCap(w: int, h: int, min: nat, t: Term, start: int, es: seq<Event>, z: World, kz: Clock)
    requires var x := World(NewSink(w, h, min), t, None); TimedRun(x, Clock(start, map[], []), es, z, kz) && AllRegular(x, es)
    ensures forall i :: 0 <= i < |kz.flushes| - 1 ==> kz.flushes[i + 1] - kz.flushes[i] >= min
  {
    var x := World(NewSink(w, h, min), t, None);
    assert Capped(ControlOf(x.sink), Clock(start, map[], []));
    CappedRun(x, Clock(start, map[], []), es, z, kz);
  }

  // ----- how it is missed

  /** The same run seen through the control part alone. */
  ghost predicate ControlRun(c: Control, k: Clock, es: seq<Event>, kz: Clock)
    decreases |es|
  {
    if es == [] then k == kz
    else Possible(c, es[0].st) && OnTime(k, es[0]) && ControlRun(ControlNext(c, es[0].st), Tick(c, k, es[0]), es[1..], kz)
  }

  ghost predicate ViewersFit(es: seq<Event>) {
    forall i :: 0 <= i < |es| && es[i].st.DoPresent? && ValidFrame(es[i].st.f) ==>
      es[i].st.viewer.w == es[i].st.f.w && es[i].st.viewer.h == es[i].st.f.h
  }

  lemma {:induction false} ControlRunIsRun(x: World, k: Clock, es: seq<Event>, kz: Clock) returns (z: World)
    requires Inv(x) && ControlRun(ControlOf(x.sink), k, es, kz) && ViewersFit(es)
    ensures TimedRun(x, k, es, z, kz)
    decreases |es|
  {
    hide Next, Tick, OnTime, ControlNext, ValidFrame;
    z := x;
    if es != [] {
      assert Enabled(x, es[0].st);
      ControlStep(x, es[0].st);
      InvStep(x, es[0].st);
      assert forall i :: 0 <= i < |es| - 1 ==> es[1..][i] == es[i + 1];
      z := ControlRunIsRun(Next(x, es[0].st), Tick(ControlOf(x.sink), k, es[0]), es[1..], kz);
    }
  }

  const NO_IO: Io := Io(0, false)

  function PresentAt(f: Frame, t: Term, at: int): (e: Event) {
    Event(DoPresent(f, at, NO_IO, t), at)
  }

  /** A timer fires, an allowed present overtakes its callback, a throttled one follows; the stale callback flushes, and so does a later present. */
  function StaleEvents(f: Frame, t: Term): (es: seq<Event>) {
    [PresentAt(f, t, 0), PresentAt(f, t, 1), Event(DoFire(0), 10), PresentAt(f, t, 10), PresentAt(f, t, 11),
     Event(DoCallback(0, 12, NO_IO), 12), PresentAt(f, t, 20)]
  }

  const NEW_CONTROL: Control := Control(Throttle(10, None), false, None, {}, {}, 0)

  lemma StaleControl(f: Frame, t: Term)
    requires ValidFrame(f)
    ensures ControlRun(NEW_CONTROL, Clock(0, map[], []), StaleEvents(f, t), Clock(20, map[0 := 10, 1 := 20], [0, 10, 12, 20]))
  {
    hide ValidFrame;
    var es := StaleEvents(f, t);
    var c1 := Control(Throttle(10, Some(0)), false, None, {}, {}, 0);
    var c2 := Control(Throttle(10, Some(0)), true, Some(0), {0}, {}, 1);
    var c3 := Control(Throttle(10, Some(0)), true, Some(0), {}, {0}, 1);
    var c4 := Control(Throttle(10, Some(10)), false, None, {}, {0}, 1);
    var c5 := Control(Throttle(10, Some(10)), true, Some(1), {1}, {0}, 2);
    var c6 := Control(Throttle(10, Some(10)), false, None, {1}, {}, 2);
    var k1, k2, k3 := Clock(0, map[], [0]), Clock(1, map[0 := 10], [0]), Clock(10, map[0 := 10], [0]);
    var k4, k5 := Clock(10, map[0 := 10], [0, 10]), Clock(11, map[0 := 10, 1 := 20], [0, 10]);
    var k6, k7 := Clock(12, map[0 := 10, 1 := 20], [0, 10, 12]), Clock(20, map[0 := 10, 1 := 20], [0, 10, 12, 20]);
    ControlCons(NEW_CONTROL, Clock(0, map[], []), es[0], c1, k1, es[1..], k7) by {
      ControlCons(c1, k1, es[1], c2, k2, es[2..], k7) by {
        ControlCons(c2, k2, es[2], c3, k3, es[3..], k7) by {
          ControlCons(c3, k3, es[3], c4, k4, es[4..], k7) by {
            ControlCons(c4, k4, es[4], c5, k5, es[5..], k7) by {
              ControlCons(c5, k5, es[5], c6, k6, es[6..], k7);
            }
          }
        }
      }
    }
  }

  lemma ControlCons(c: Control, k: Clock, e: Event, d: Control, l: Clock, rest: seq<Event>, kz: Clock)
    requires Possible(c, e.st) && OnTime(k, e) && ControlNext(c, e.st) == d && Tick(c, k, e) == l && ControlRun(d, l, rest, kz)
    ensures ControlRun(c, k, [e] + rest, kz)
  {
    hide ControlNext, Tick, OnTime;
    assert ([e] + rest)[1..] == rest;
  }

  /** A new sink of the frame's own size, under a cap of one flush in ten ticks. */
  ghost function NewWorld(f: Frame, t: Term): (x: World) {
    World(NewSink(f.w, f.h, 10), t, None)
  }

  lemma NewWorldOk(f: Frame, t: Term)
    requires ValidFrame(f) && t.w == f.w && t.h == f.h
    ensures Inv(NewWorld(f, t)) && ControlOf(NewWorld(f, t).sink) == NEW_CONTROL
  {
    SizedBy(f.w, f.h);
    FreshWorld(f.w, f.h, 10, t);
    hide Inv;
  }

  /**
   A stale callback flushes two ticks after a present, and because it does not move the
   throttle, the next allowed present flushes eight ticks after it.
   */
  lemma StaleCallbackIsEarly(f: Frame, t: Term)
    requires ValidFrame(f) && t.w == f.w && t.h == f.h
    ensures exists es: seq<Event>, z: World, kz: Clock ::
      TimedRun(NewWorld(f, t), Clock(0, map[], []), es, z, kz) && kz.flushes == [0, 10, 12, 20]
  {
    hide ControlRun, TimedRun, Inv, NewWorld;
    NewWorldOk(f, t);
    StaleControl(f, t);
    var z := ControlRunIsRun(NewWorld(f, t), Clock(0, map[], []), StaleEvents(f, t), Clock(20, map[0 := 10, 1 := 20], [0, 10, 12, 20]));
  }

  function CloseEvents(f: Frame, t: Term): (es: seq<Event>) {
    [PresentAt(f, t, 0), PresentAt(f, t, 1), Event(DoClose(NO_IO), 2)]
  }

  lemma CloseControl(f: Frame, t: Term)
    requires ValidFrame(f)
    ensures ControlRun(NEW_CONTROL, Clock(0, map[], []), CloseEvents(f, t), Clock(2, map[0 := 10], [0, 2]))
  {
    hide ValidFrame;
    var es := CloseEvents(f, t);
    var c1 := Control(Throttle(10, Some(0)), false, None, {}, {}, 0);
    var c2 := Control(Throttle(10, Some(0)), true, Some(0), {0}, {}, 1);
    var k1, k2, k3 := Clock(0, map[], [0]), Clock(1, map[0 := 10], [0]), Clock(2, map[0 := 10], [0, 2]);
    ControlCons(NEW_CONTROL, Clock(0, map[], []), es[0], c1, k1, es[1..], k3) by {
      ControlCons(c1, k1, es[1], c2, k2, es[2..], k3);
    }
  }

  /** A close flushes a throttled frame at once. */
  lemma CloseIsEarly(f: Frame, t: Term)
    requires ValidFrame(f) && t.w == f.w && t.h == f.h
    ensures exists es: seq<Event>, z: World, kz: Clock ::
      TimedRun(NewWorld(f, t), Clock(0, map[], []), es, z, kz) && kz.flushes == [0, 2]
  {
    hide ControlRun, TimedRun, Inv, NewWorld;
    NewWorldOk(f, t);
    CloseControl(f, t);
    var z := ControlRunIsRun(NewWorld(f, t), Clock(0, map[], []), CloseEvents(f, t), Clock(2, map[0 := 10], [0, 2]));
  }
}
