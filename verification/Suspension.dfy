/**
 Delivery of committed suspensions to the kill switch: a retry queue that races with
 registration, failing deliveries and flush passes. Every lock region is one atomic
 step; deliveries and timer callbacks interleave freely between them.
 */
module Suspension {
  import opened Results

  datatype Suspended = Suspended(scope: string, id: string)

  const MAX_PENDING: nat := 64

  /**
   The fields under the mutex, and the retry timers the runtime still owes a firing.
   The queue holds plain suspensions in the program and, in the proof, entries that
   also name the commits they stand for.
   */
  datatype Backend<T> = Backend(watch: bool, pending: seq<T>, retry: Option<nat>, attempts: nat, armed: set<nat>, next: nat)

  /** Arms the retry timer, making one when there is none. */
  function Schedule<T>(b: Backend<T>): (r: Backend<T>)
    ensures r.retry.Some? && r.retry.value in r.armed && r.pending == b.pending && r.watch == b.watch
  {
    var counted := b.(attempts := b.attempts + 1);
    if b.retry.None? then counted.(retry := Some(b.next), armed := b.armed + {b.next}, next := b.next + 1)
    else counted.(armed := b.armed + {b.retry.value})
  }

  /** A flush pass takes the whole queue and forgets the timer that started it. */
  function Take<T>(b: Backend<T>): (r: Backend<T>) {
    b.(pending := [], retry := None)
  }

  /** Registration takes the queue, too, and starts the backoff afresh. */
  function TakeForWatch<T>(b: Backend<T>): (r: Backend<T>) {
    Take(b).(watch := true, attempts := 0)
  }

  /** The end of a pass: failures go back in front of whatever arrived meanwhile. */
  function Rejoin<T>(b: Backend<T>, failed: seq<T>): (r: Backend<T>) {
    if failed == [] then b.(attempts := 0) else Schedule(b.(pending := failed + b.pending))
  }

  // ----- the queue as the program keeps it

  function EnqueuePlain(pending: seq<Suspended>, e: Suspended): (r: seq<Suspended>)
    ensures e in r
  {
    if e in pending then pending
    else if |pending| >= MAX_PENDING then pending[1..] + [e]
    else pending + [e]
  }

  // ----- the queue with the commits each entry stands for

  /** `commits` are positions in the log of committed suspensions. */
  datatype Entry = Entry(event: Suspended, commits: multiset<nat>)

  /** What an enqueue does to the queue, and the commits the overflow rule drops. */
  datatype Queued = Queued(pending: seq<Entry>, dropped: multiset<nat>)

  function Enqueue(pending: seq<Entry>, e: Entry): (r: Queued)
    decreases |pending|
  {
    if Waiting(pending, e.event) then Queued(Merge(pending, e), multiset{})
    else if |pending| >= MAX_PENDING then Queued(pending[1..] + [e], pending[0].commits)
    else Queued(pending + [e], multiset{})
  }

  predicate Waiting(pending: seq<Entry>, event: Suspended) {
    exists k :: 0 <= k < |pending| && pending[k].event == event
  }

  /** The first equal entry takes over the commits of the one being coalesced. */
  function Merge(pending: seq<Entry>, e: Entry): (r: seq<Entry>)
    requires Waiting(pending, e.event)
    ensures |r| == |pending|
    ensures forall k :: 0 <= k < |r| ==> r[k].event == pending[k].event
  {
    if pending[0].event == e.event then [Entry(e.event, pending[0].commits + e.commits)] + pending[1..]
    else
      assert Waiting(pending[1..], e.event) by {
        var k :| 0 <= k < |pending| && pending[k].event == e.event;
        assert pending[1..][k - 1].event == e.event;
      }
      [pending[0]] + Merge(pending[1..], e)
  }

  function Events(pending: seq<Entry>): (r: seq<Suspended>)
    ensures |r| == |pending|
    ensures forall k :: 0 <= k < |r| ==> r[k] == pending[k].event
  {
    seq(|pending|, k requires 0 <= k < |pending| => pending[k].event)
  }

  function Erase(b: Backend<Entry>): (r: Backend<Suspended>) {
    Backend(b.watch, Events(b.pending), b.retry, b.attempts, b.armed, b.next)
  }

  /** The bookkeeping does not change what the program does. */
  lemma EnqueueErases(pending: seq<Entry>, e: Entry)
    ensures Events(Enqueue(pending, e).pending) == EnqueuePlain(Events(pending), e.event)
  {
    assert Waiting(pending, e.event) <==> e.event in Events(pending) by {
      if e.event in Events(pending) {
        var k :| 0 <= k < |pending| && Events(pending)[k] == e.event;
        assert pending[k].event == e.event;
      }
      if Waiting(pending, e.event) {
        var k :| 0 <= k < |pending| && pending[k].event == e.event;
        assert Events(pending)[k] == e.event;
      }
    }
  }

  // ----- conservation

  function Commits(entries: seq<Entry>): (r: multiset<nat>)
    decreases |entries|
  {
    if entries == [] then multiset{} else entries[0].commits + Commits(entries[1..])
  }

  lemma {:induction false} CommitsJoin(a: seq<Entry>, b: seq<Entry>)
    ensures Commits(a + b) == Commits(a) + Commits(b)
    decreases |a|
  {
    if a == [] {
      assert a + b == b;
    } else {
      assert (a + b)[1..] == a[1..] + b;
      CommitsJoin(a[1..], b);
    }
  }

  lemma CommitsOne(e: Entry)
    ensures Commits([e]) == e.commits
  {
    assert [e][1..] == [];
  }

  lemma {:induction false} MergeConserves(pending: seq<Entry>, e: Entry)
    requires Waiting(pending, e.event)
    ensures Commits(Merge(pending, e)) == Commits(pending) + e.commits
    decreases |pending|
  {
    var r := Merge(pending, e);
    if pending[0].event == e.event {
      assert r[1..] == pending[1..];
    } else {
      var k :| 0 <= k < |pending| && pending[k].event == e.event;
      assert pending[1..][k - 1].event == e.event;
      MergeConserves(pending[1..], e);
      assert r[1..] == Merge(pending[1..], e);
    }
  }

  /** Every commit enqueued is still queued or was dropped by the overflow rule. */
  lemma EnqueueConserves(pending: seq<Entry>, e: Entry)
    ensures var r := Enqueue(pending, e); Commits(r.pending) + r.dropped == Commits(pending) + e.commits
    ensures Enqueue(pending, e).dropped != multiset{} ==> |pending| >= MAX_PENDING && !Waiting(pending, e.event)
  {
    if Waiting(pending, e.event) {
      MergeConserves(pending, e);
    } else {
      CommitsOne(e);
      CommitsJoin(pending, [e]);
      if |pending| >= MAX_PENDING {
        CommitsJoin(pending[1..], [e]);
      }
    }
  }

  // ----- the world: the backend and the goroutines around it

  datatype Proc =
    | Idle
    | Delivering(entry: Entry)
    | Registering(stop: Option<nat>, rest: seq<Entry>)
    | Flushing(rest: seq<Entry>, failed: seq<Entry>)

  datatype World = World(
    b: Backend<Entry>, callbacks: nat, procs: seq<Proc>,
    log: seq<Suspended>, acked: multiset<nat>, dropped: multiset<nat>)

  datatype Step =
    | Commit(event: Suspended)
    | Register
    | StopTimer(k: nat)
    | Deliver(k: nat, ok: bool)
    | Fire(timer: nat)
    | FlushBegin
    | FlushEnd(k: nat)

  function Held(p: Proc): (r: multiset<nat>) {
    match p
    case Idle => multiset{}
    case Delivering(e) => e.commits
    case Registering(_, rest) => Commits(rest)
    case Flushing(rest, failed) => Commits(rest) + Commits(failed)
  }

  function InFlight(procs: seq<Proc>): (r: multiset<nat>)
    decreases |procs|
  {
    if procs == [] then multiset{} else Held(procs[0]) + InFlight(procs[1..])
  }

  /** `requeue`: enqueue and arm the retry timer. */
  function Requeue(w: World, e: Entry): (r: World) {
    var q := Enqueue(w.b.pending, e);
    w.(b := Schedule(w.b.(pending := q.pending)), dropped := w.dropped + q.dropped)
  }

  predicate Enabled(w: World, s: Step) {
    match s
    case Commit(_) => true
    case Register => true
    case StopTimer(k) => k < |w.procs| && w.procs[k].Registering? && w.procs[k].stop.Some?
    case Deliver(k, _) =>
      k < |w.procs| && (w.procs[k].Delivering?
                        || (w.procs[k].Registering? && w.procs[k].stop.None? && w.procs[k].rest != [])
                        || (w.procs[k].Flushing? && w.procs[k].rest != []))
    case Fire(t) => t in w.b.armed
    case FlushBegin => w.callbacks > 0
    case FlushEnd(k) => k < |w.procs| && w.procs[k].Flushing? && w.procs[k].rest == []
  }

  /** One delivery attempt: acknowledged, or requeued, or kept for the end of the pass. */
  function DeliverStep(w: World, k: nat, ok: bool): (r: World)
    requires Enabled(w, Deliver(k, ok))
  {
    match w.procs[k]
    case Delivering(e) =>
      var x := w.(procs := w.procs[k := Idle]);
      if ok then x.(acked := x.acked + e.commits) else Requeue(x, e)
    case Registering(stop, rest) =>
      var x := w.(procs := w.procs[k := Registering(stop, rest[1..])]);
      if ok then x.(acked := x.acked + rest[0].commits) else Requeue(x, rest[0])
    case Flushing(rest, failed) =>
      if ok then w.(procs := w.procs[k := Flushing(rest[1..], failed)], acked := w.acked + rest[0].commits)
      else w.(procs := w.procs[k := Flushing(rest[1..], failed + [rest[0]])])
  }

  /** A pass that finds no kill switch drops what it took; otherwise it starts delivering. */
  function FlushBeginStep(w: World): (r: World)
    requires w.callbacks > 0
  {
    var x := w.(callbacks := w.callbacks - 1, b := Take(w.b));
    if !w.b.watch || w.b.pending == [] then x else x.(procs := w.procs + [Flushing(w.b.pending, [])])
  }

  function Next(w: World, s: Step): (r: World)
    requires Enabled(w, s)
  {
    match s
    case Commit(event) =>
      var e, logged := Entry(event, multiset{|w.log|}), w.(log := w.log + [event]);
      if w.b.watch then logged.(procs := w.procs + [Delivering(e)])
      else
        var q := Enqueue(w.b.pending, e);
        logged.(b := w.b.(pending := q.pending), dropped := w.dropped + q.dropped)
    case Register => w.(b := TakeForWatch(w.b), procs := w.procs + [Registering(w.b.retry, w.b.pending)])
    case StopTimer(k) =>
      w.(b := w.b.(armed := w.b.armed - {w.procs[k].stop.value}), procs := w.procs[k := w.procs[k].(stop := None)])
    case Deliver(k, ok) => DeliverStep(w, k, ok)
    case Fire(t) => w.(b := w.b.(armed := w.b.armed - {t}), callbacks := w.callbacks + 1)
    case FlushBegin => FlushBeginStep(w)
    case FlushEnd(k) => w.(b := Rejoin(w.b, w.procs[k].failed), procs := w.procs[k := Idle])
  }

  // ----- invariants

  /** How often commit `t` is acknowledged, in flight, pending or dropped. */
  function Count(w: World, t: nat): (n: nat) {
    w.acked[t] + InFlight(w.procs)[t] + Commits(w.b.pending)[t] + w.dropped[t]
  }

  /** Each commit is in exactly one of these places, exactly once; nothing else is. */
  ghost predicate Conserved(w: World) {
    forall t: nat :: Count(w, t) == if t < |w.log| then 1 else 0
  }

  /** Timers only exist behind a registered kill switch, so no pass drops its queue. */
  ghost predicate TimersRegistered(w: World) {
    !w.b.watch ==> w.b.armed == {} && w.callbacks == 0 && w.b.retry == None && w.procs == []
  }

  ghost predicate TimersKnown(w: World) {
    && (w.b.retry.Some? ==> w.b.retry.value < w.b.next)
    && (forall k :: 0 <= k < |w.procs| && w.procs[k].Registering? && w.procs[k].stop.Some? ==>
          w.procs[k].stop.value < w.b.next && w.b.retry != w.procs[k].stop)
  }

  /** Pending work behind a registered kill switch has a retry outstanding. */
  ghost predicate RetryOutstanding(w: World) {
    w.b.watch && w.b.pending != [] ==> w.b.retry.Some? && (w.b.retry.value in w.b.armed || w.callbacks > 0)
  }

  /** An entry stands only for commits of the suspension it delivers. */
  ghost predicate Labelled(e: Entry, log: seq<Suspended>) {
    forall t :: t in e.commits ==> t < |log| && log[t] == e.event
  }

  ghost predicate AllLabelled(entries: seq<Entry>, log: seq<Suspended>) {
    forall k :: 0 <= k < |entries| ==> Labelled(entries[k], log)
  }

  ghost predicate ProcLabelled(p: Proc, log: seq<Suspended>) {
    match p
    case Idle => true
    case Delivering(e) => Labelled(e, log)
    case Registering(_, rest) => AllLabelled(rest, log)
    case Flushing(rest, failed) => AllLabelled(rest, log) && AllLabelled(failed, log)
  }

  ghost predicate WorldLabelled(w: World) {
    AllLabelled(w.b.pending, w.log) && forall k :: 0 <= k < |w.procs| ==> ProcLabelled(w.procs[k], w.log)
  }

  ghost predicate Inv(w: World) {
    Conserved(w) && WorldLabelled(w) && TimersRegistered(w) && TimersKnown(w) && RetryOutstanding(w)
  }

  lemma {:induction false} InFlightUpdate(procs: seq<Proc>, k: nat, p: Proc, t: nat)
    requires k < |procs|
    ensures InFlight(procs[k := p])[t] + Held(procs[k])[t] == InFlight(procs)[t] + Held(p)[t]
    decreases |procs|
  {
    var r := procs[k := p];
    if k == 0 {
      assert r[1..] == procs[1..];
    } else {
      assert r[1..] == procs[1..][k - 1 := p];
      InFlightUpdate(procs[1..], k - 1, p, t);
    }
  }

  lemma {:induction false} InFlightAppend(procs: seq<Proc>, p: Proc, t: nat)
    ensures InFlight(procs + [p])[t] == InFlight(procs)[t] + Held(p)[t]
    decreases |procs|
  {
    if procs == [] {
      assert ([p] + [])[1..] == [];
    } else {
      assert (procs + [p])[1..] == procs[1..] + [p];
      InFlightAppend(procs[1..], p, t);
    }
  }

  /** Where a commit is counted moves, but how often it is counted does not change. */
  lemma CountStep(w: World, s: Step, t: nat)
    requires TimersRegistered(w) && Enabled(w, s)
    ensures Count(Next(w, s), t) == Count(w, t) + if s.Commit? && t == |w.log| then 1 else 0
  {
    hide Enqueue, InFlight, DeliverStep, Commits, Rejoin;
    match s
    case Commit(event) =>
      CommitCount(w, event, t);
    case Register =>
      CommitsEmpty();
      InFlightAppend(w.procs, Registering(w.b.retry, w.b.pending), t);
    case StopTimer(k) =>
      InFlightUpdate(w.procs, k, w.procs[k].(stop := None), t);
    case Deliver(k, ok) =>
      DeliverCount(w, k, ok, t);
    case Fire(_) =>
    case FlushBegin =>
      CommitsEmpty();
      InFlightAppend(w.procs, Flushing(w.b.pending, []), t);
    case FlushEnd(k) =>
      CommitsEmpty();
      InFlightUpdate(w.procs, k, Idle, t);
      RejoinCount(w.b, w.procs[k].failed, t);
  }

  lemma CommitsEmpty()
    ensures Commits([]) == multiset{}
  {}

  lemma RejoinCount(b: Backend<Entry>, failed: seq<Entry>, t: nat)
    ensures Commits(Rejoin(b, failed).pending)[t] == Commits(b.pending)[t] + Commits(failed)[t]
  {
    CommitsJoin(failed, b.pending);
  }

  lemma CommitCount(w: World, event: Suspended, t: nat)
    ensures Count(Next(w, Commit(event)), t) == Count(w, t) + if t == |w.log| then 1 else 0
  {
    hide Enqueue, InFlight, Commits;
    var e := Entry(event, multiset{|w.log|});
    InFlightAppend(w.procs, Delivering(e), t);
    EnqueueCount(w.b.pending, e, t);
  }

  lemma EnqueueCount(pending: seq<Entry>, e: Entry, t: nat)
    ensures var r := Enqueue(pending, e); Commits(r.pending)[t] + r.dropped[t] == Commits(pending)[t] + e.commits[t]
  {
    EnqueueConserves(pending, e);
    hide Enqueue, Commits;
    var r := Enqueue(pending, e);
    assert (Commits(r.pending) + r.dropped)[t] == (Commits(pending) + e.commits)[t];
  }

  lemma DeliverCount(w: World, k: nat, ok: bool, t: nat)
    requires Enabled(w, Deliver(k, ok))
    ensures Count(DeliverStep(w, k, ok), t) == Count(w, t)
  {
    hide Enqueue;
    match w.procs[k]
    case Delivering(e) =>
      InFlightUpdate(w.procs, k, Idle, t);
      EnqueueCount(w.b.pending, e, t);
    case Registering(stop, rest) =>
      InFlightUpdate(w.procs, k, Registering(stop, rest[1..]), t);
      EnqueueCount(w.b.pending, rest[0], t);
    case Flushing(rest, failed) =>
      CommitsOne(rest[0]);
      CommitsJoin(failed, [rest[0]]);
      InFlightUpdate(w.procs, k, Flushing(rest[1..], if ok then failed else failed + [rest[0]]), t);
  }

  lemma TimersStep(w: World, s: Step)
    requires Inv(w) && Enabled(w, s)
    ensures var r := Next(w, s); TimersRegistered(r) && TimersKnown(r) && RetryOutstanding(r)
  {
    hide Conserved, WorldLabelled, Enqueue, Commits, InFlight, Held, DeliverStep;
    if s.Deliver? {
      TimersDeliver(w, s.k, s.ok);
    }
  }

  lemma TimersDeliver(w: World, k: nat, ok: bool)
    requires TimersRegistered(w) && TimersKnown(w) && RetryOutstanding(w) && Enabled(w, Deliver(k, ok))
    ensures var r := DeliverStep(w, k, ok); TimersRegistered(r) && TimersKnown(r) && RetryOutstanding(r)
  {
    hide Enqueue;
  }

  lemma EnqueueLabelled(pending: seq<Entry>, e: Entry, log: seq<Suspended>)
    requires AllLabelled(pending, log) && Labelled(e, log)
    ensures AllLabelled(Enqueue(pending, e).pending, log)
  {
    if Waiting(pending, e.event) {
      MergeLabelled(pending, e, log);
    }
  }

  lemma {:induction false} MergeLabelled(pending: seq<Entry>, e: Entry, log: seq<Suspended>)
    requires AllLabelled(pending, log) && Labelled(e, log) && Waiting(pending, e.event)
    ensures AllLabelled(Merge(pending, e), log)
    decreases |pending|
  {
    if pending[0].event != e.event {
      var k :| 0 <= k < |pending| && pending[k].event == e.event;
      assert pending[1..][k - 1].event == e.event;
      assert AllLabelled(pending[1..], log);
      MergeLabelled(pending[1..], e, log);
    }
  }

  lemma LogGrows(w: World, event: Suspended)
    requires WorldLabelled(w)
    ensures WorldLabelled(w.(log := w.log + [event]))
  {
    var longer := w.log + [event];
    assert forall e :: Labelled(e, w.log) ==> Labelled(e, longer);
    forall k | 0 <= k < |w.procs| ensures ProcLabelled(w.procs[k], longer) {
      assert ProcLabelled(w.procs[k], w.log);
    }
  }

  lemma FreshLabelled(event: Suspended, log: seq<Suspended>)
    ensures Labelled(Entry(event, multiset{|log|}), log + [event])
  {}

  lemma LabelledStep(w: World, s: Step)
    requires WorldLabelled(w) && Enabled(w, s)
    ensures WorldLabelled(Next(w, s))
  {
    hide Enqueue, Labelled;
    match s
    case Commit(event) =>
      LogGrows(w, event);
      var e := Entry(event, multiset{|w.log|});
      FreshLabelled(event, w.log);
      EnqueueLabelled(w.b.pending, e, w.log + [event]);
    case Register =>
    case StopTimer(k) =>
      assert ProcLabelled(w.procs[k], w.log);
    case Deliver(k, ok) =>
      assert ProcLabelled(w.procs[k], w.log);
      if !w.procs[k].Flushing? {
        EnqueueLabelled(w.b.pending, if w.procs[k].Delivering? then w.procs[k].entry else w.procs[k].rest[0], w.log);
      }
    case Fire(_) =>
    case FlushBegin =>
    case FlushEnd(k) =>
      assert ProcLabelled(w.procs[k], w.log);
  }

  // ----- runs

  lemma InvStep(w: World, s: Step)
    requires Inv(w) && Enabled(w, s)
    ensures Inv(Next(w, s))
  {
    hide Enabled, Next, Count, WorldLabelled, TimersRegistered, TimersKnown, RetryOutstanding;
    LabelledStep(w, s);
    TimersStep(w, s);
    LogStep(w, s);
    forall t: nat ensures Count(Next(w, s), t) == if t < |Next(w, s).log| then 1 else 0 {
      CountStep(w, s, t);
      assert Count(w, t) == if t < |w.log| then 1 else 0;
    }
  }

  lemma LogStep(w: World, s: Step)
    requires Enabled(w, s)
    ensures |Next(w, s).log| == |w.log| + if s.Commit? then 1 else 0
  {}

  ghost predicate Init(w: World) {
    && !w.b.watch && w.b.pending == [] && w.b.retry == None && w.b.armed == {} && w.callbacks == 0
    && w.procs == [] && w.log == [] && w.acked == multiset{} && w.dropped == multiset{}
  }

  /** Every interleaving of commits, registrations, deliveries, timers and passes. */
  ghost predicate Trace(ws: seq<World>, steps: seq<Step>) {
    && |ws| == |steps| + 1 && Init(ws[0])
    && forall k :: 0 <= k < |steps| ==> Enabled(ws[k], steps[k]) && ws[k + 1] == Next(ws[k], steps[k])
  }

  lemma {:induction false} EveryRun(ws: seq<World>, steps: seq<Step>, n: nat)
    requires Trace(ws, steps) && n < |ws|
    ensures Inv(ws[n])
  {
    if n > 0 {
      EveryRun(ws, steps, n - 1);
      InvStep(ws[n - 1], steps[n - 1]);
    }
  }

  ghost predicate Quiet(w: World) {
    w.b.watch && w.b.armed == {} && w.callbacks == 0 && forall k :: 0 <= k < |w.procs| ==> Held(w.procs[k]) == multiset{}
  }

  lemma {:induction false} NothingInFlight(procs: seq<Proc>)
    requires forall k :: 0 <= k < |procs| ==> Held(procs[k]) == multiset{}
    ensures InFlight(procs) == multiset{}
    decreases |procs|
  {
    if procs != [] {
      assert forall k :: 0 <= k < |procs| - 1 ==> procs[1..][k] == procs[k + 1];
      NothingInFlight(procs[1..]);
    }
  }

  /**
   When a registered backend has come to rest, every suspension ever committed was
   acknowledged exactly once or dropped exactly once by the overflow rule.
   */
  lemma RestMeansDelivered(ws: seq<World>, steps: seq<Step>, n: nat, t: nat)
    requires Trace(ws, steps) && n < |ws| && Quiet(ws[n]) && t < |ws[n].log|
    ensures ws[n].acked[t] + ws[n].dropped[t] == 1
  {
    EveryRun(ws, steps, n);
    NothingInFlight(ws[n].procs);
    assert ws[n].b.pending == [];
    assert Count(ws[n], t) == 1;
  }

  /** Only the overflow rule drops: the queue was full and the arriving suspension new to it. */
  lemma DropsOnlyOnOverflow(ws: seq<World>, steps: seq<Step>, n: nat)
    requires Trace(ws, steps) && n < |steps|
    ensures ws[n + 1].dropped != ws[n].dropped ==> |ws[n].b.pending| >= MAX_PENDING && (steps[n].Commit? || steps[n].Deliver?)
  {
    var w, s := ws[n], steps[n];
    assert Enabled(w, s) && ws[n + 1] == Next(w, s);
    hide Waiting, Merge;
    assert w.dropped + multiset{} == w.dropped;
  }

  /** An acknowledgement is for the very suspension each commit it settles had asked for. */
  lemma AcknowledgesOwn(ws: seq<World>, steps: seq<Step>, n: nat, k: nat)
    requires Trace(ws, steps) && n < |steps| && steps[n] == Deliver(k, true)
    ensures k < |ws[n].procs| && exists e: Entry :: Labelled(e, ws[n].log) && ws[n + 1].acked == ws[n].acked + e.commits
  {
    EveryRun(ws, steps, n);
    var w := ws[n];
    assert Enabled(w, steps[n]) && ws[n + 1] == Next(w, steps[n]);
    assert ProcLabelled(w.procs[k], w.log);
    var e := if w.procs[k].Delivering? then w.procs[k].entry else w.procs[k].rest[0];
    assert Labelled(e, w.log);
  }

  // ----- the bound on the queue

  lemma EnqueueLength(pending: seq<Entry>, e: Entry)
    requires |pending| <= MAX_PENDING
    ensures |Enqueue(pending, e).pending| <= MAX_PENDING
  {
  }

  /** The step ends a pass whose failures do not fit in front of later arrivals. */
  predicate RejoinsTooMany(w: World, s: Step) {
    && s.FlushEnd? && s.k < |w.procs| && w.procs[s.k].Flushing?
    && |w.procs[s.k].failed| + |w.b.pending| > MAX_PENDING
  }

  /** A step takes the queue past its bound if and only if it ends such a pass. */
  lemma BoundIff(w: World, s: Step)
    requires Enabled(w, s) && |w.b.pending| <= MAX_PENDING
    ensures |Next(w, s).b.pending| <= MAX_PENDING <==> !RejoinsTooMany(w, s)
  {
    hide Enqueue;
    if s.Commit? {
      EnqueueLength(w.b.pending, Entry(s.event, multiset{|w.log|}));
    } else if s.Deliver? && w.procs[s.k].Delivering? {
      EnqueueLength(w.b.pending, w.procs[s.k].entry);
    } else if s.Deliver? && w.procs[s.k].Registering? {
      EnqueueLength(w.b.pending, w.procs[s.k].rest[0]);
    }
  }

  /** The queue keeps its bound throughout a run if and only if none of the steps ends such a pass. */
  lemma {:induction false} BoundRun(ws: seq<World>, steps: seq<Step>, n: nat)
    requires Trace(ws, steps) && n <= |steps|
    ensures (forall k :: 0 <= k <= n ==> |ws[k].b.pending| <= MAX_PENDING) <==> forall k :: 0 <= k < n ==> !RejoinsTooMany(ws[k], steps[k])
  {
    hide Next, Enabled, RejoinsTooMany;
    if n > 0 {
      BoundRun(ws, steps, n - 1);
      assert Enabled(ws[n - 1], steps[n - 1]) && ws[n] == Next(ws[n - 1], steps[n - 1]);
      if |ws[n - 1].b.pending| <= MAX_PENDING {
        BoundIff(ws[n - 1], steps[n - 1]);
      }
    }
  }

  // ----- duplicates

  ghost predicate Distinct(es: seq<Suspended>) {
    forall i, j :: 0 <= i < j < |es| ==> es[i] != es[j]
  }

  /** No suspension waits twice, in the queue or in any one pass. */
  ghost predicate NoRepeats(w: World) {
    && Distinct(Events(w.b.pending))
    && forall k :: 0 <= k < |w.procs| ==> PassDistinct(w.procs[k])
  }

  ghost predicate PassDistinct(p: Proc) {
    p.Flushing? ==> Distinct(Events(p.failed + p.rest))
  }

  /** The step ends a pass that failed to deliver a suspension waiting again by then. */
  predicate RejoinsRepeat(w: World, s: Step) {
    && s.FlushEnd? && s.k < |w.procs| && w.procs[s.k].Flushing?
    && exists i, j :: 0 <= i < |w.procs[s.k].failed| && 0 <= j < |w.b.pending|
        && w.procs[s.k].failed[i].event == w.b.pending[j].event
  }

  /** From a state without repeats a step leads to one with a repeat if and only if it ends such a pass. */
  lemma DistinctStep(w: World, s: Step)
    requires NoRepeats(w) && Enabled(w, s)
    ensures NoRepeats(Next(w, s)) <==> !RejoinsRepeat(w, s)
  {
    match s
    case Commit(event) =>
      EnqueueDistinct(w.b.pending, Entry(event, multiset{|w.log|}));
      hide Enqueue;
    case Register =>
    case StopTimer(k) =>
    case Deliver(k, ok) =>
      DistinctDeliver(w, k, ok);
    case Fire(_) =>
    case FlushBegin =>
      assert [] + w.b.pending == w.b.pending;
    case FlushEnd(k) =>
      DistinctEnd(w, k);
  }

  lemma EnqueueDistinct(pending: seq<Entry>, e: Entry)
    requires Distinct(Events(pending))
    ensures Distinct(Events(Enqueue(pending, e).pending))
  {
    EnqueueErases(pending, e);
    hide Enqueue;
  }

  lemma DistinctDeliver(w: World, k: nat, ok: bool)
    requires NoRepeats(w) && Enabled(w, Deliver(k, ok))
    ensures NoRepeats(DeliverStep(w, k, ok))
  {
    match w.procs[k]
    case Delivering(e) =>
      EnqueueDistinct(w.b.pending, e);
      hide Enqueue;
    case Registering(_, rest) =>
      EnqueueDistinct(w.b.pending, rest[0]);
      hide Enqueue;
    case Flushing(rest, failed) =>
      assert PassDistinct(w.procs[k]);
      PassAdvances(failed, rest);
  }

  lemma PassAdvances(failed: seq<Entry>, rest: seq<Entry>)
    requires rest != [] && Distinct(Events(failed + rest))
    ensures Distinct(Events(failed + [rest[0]] + rest[1..])) && Distinct(Events(failed + rest[1..]))
  {
    assert failed + [rest[0]] + rest[1..] == failed + rest;
    var all, fewer := Events(failed + rest), Events(failed + rest[1..]);
    assert forall i :: 0 <= i < |fewer| ==> fewer[i] == all[if i < |failed| then i else i + 1];
  }

  lemma DistinctEnd(w: World, k: nat)
    requires NoRepeats(w) && Enabled(w, FlushEnd(k))
    ensures NoRepeats(Next(w, FlushEnd(k))) <==> !RejoinsRepeat(w, FlushEnd(k))
  {
    var failed, pending, z := w.procs[k].failed, w.b.pending, Next(w, FlushEnd(k));
    assert PassDistinct(w.procs[k]);
    assert failed + [] == failed && (failed == [] ==> failed + pending == pending);
    assert z.b.pending == failed + pending;
    assert Events(failed + pending) == Events(failed) + Events(pending);
    DistinctJoin(Events(failed), Events(pending));
    forall i | 0 <= i < |z.procs| ensures PassDistinct(z.procs[i]) {
      assert PassDistinct(w.procs[i]);
    }
  }

  lemma DistinctJoin(a: seq<Suspended>, b: seq<Suspended>)
    requires Distinct(a) && Distinct(b)
    ensures Distinct(a + b) <==> forall i, j :: 0 <= i < |a| && 0 <= j < |b| ==> a[i] != b[j]
  {
    var c := a + b;
    if Distinct(c) {
      forall i, j | 0 <= i < |a| && 0 <= j < |b| ensures a[i] != b[j] {
        assert c[i] == a[i] && c[|a| + j] == b[j];
      }
    }
  }

  /** A run is free of repeats throughout if and only if none of its steps ends such a pass. */
  lemma {:induction false} DistinctRun(ws: seq<World>, steps: seq<Step>, n: nat)
    requires Trace(ws, steps) && n <= |steps|
    ensures (forall k :: 0 <= k <= n ==> NoRepeats(ws[k])) <==> forall k :: 0 <= k < n ==> !RejoinsRepeat(ws[k], steps[k])
  {
    hide Next, Enabled, NoRepeats, RejoinsRepeat;
    if n == 0 {
      NoneAtFirst(ws[0]);
    } else {
      DistinctRun(ws, steps, n - 1);
      assert Enabled(ws[n - 1], steps[n - 1]) && ws[n] == Next(ws[n - 1], steps[n - 1]);
      if NoRepeats(ws[n - 1]) {
        DistinctStep(ws[n - 1], steps[n - 1]);
      }
    }
  }

  lemma NoneAtFirst(w: World)
    requires Init(w)
    ensures NoRepeats(w)
  {}

  // ----- order

  /** `a` is what remains of `b` after taking some entries out. */
  predicate Subsequence(a: seq<Entry>, b: seq<Entry>)
    decreases |b|
  {
    a == [] || (b != [] && ((a[0] == b[0] && Subsequence(a[1..], b[1..])) || Subsequence(a, b[1..])))
  }

  lemma {:induction false} SubsequenceSelf(a: seq<Entry>)
    ensures Subsequence(a, a)
    decreases |a|
  {
    if a != [] {
      SubsequenceSelf(a[1..]);
    }
  }

  lemma {:induction false} SubsequenceWithout(a: seq<Entry>, n: nat, b: seq<Entry>)
    requires n < |a| && Subsequence(a, b)
    ensures Subsequence(a[..n] + a[n + 1..], b)
    decreases |b|
  {
    var c := a[..n] + a[n + 1..];
    if a[0] == b[0] && Subsequence(a[1..], b[1..]) {
      if n == 0 {
        assert c == a[1..];
        SubsequenceDrop(c, b);
      } else {
        assert c[1..] == a[1..][..n - 1] + a[1..][n..];
        SubsequenceWithout(a[1..], n - 1, b[1..]);
      }
    } else {
      SubsequenceWithout(a, n, b[1..]);
      SubsequenceDrop(c, b);
    }
  }

  lemma SubsequenceDrop(a: seq<Entry>, b: seq<Entry>)
    requires b != [] && Subsequence(a, b[1..])
    ensures Subsequence(a, b)
  {}

  /** What a pass has failed to deliver and has yet to try, in the order it will go back. */
  function Remaining(p: Proc): (es: seq<Entry>)
    requires p.Flushing?
  {
    p.failed + p.rest
  }

  lemma PassOrderStep(w: World, s: Step, k: nat, taken: seq<Entry>)
    requires Enabled(w, s) && k < |w.procs| && w.procs[k].Flushing? && Subsequence(Remaining(w.procs[k]), taken)
    ensures var z := Next(w, s); k < |z.procs| && (z.procs[k].Flushing? ==> Subsequence(Remaining(z.procs[k]), taken))
    ensures !Next(w, s).procs[k].Flushing? ==> s == FlushEnd(k)
  {
    hide Enqueue, Subsequence;
    var p := w.procs[k];
    if s.Deliver? && s.k == k {
      var n := |p.failed|;
      assert p.failed + [p.rest[0]] + p.rest[1..] == Remaining(p);
      assert Remaining(p)[..n] + Remaining(p)[n + 1..] == p.failed + p.rest[1..];
      SubsequenceWithout(Remaining(p), n, taken);
    }
  }

  /**
   From the start of a pass to its end, whatever happens meanwhile, what it failed to
   deliver keeps the order of the queue it took, and goes back in front of everything
   that arrived since.
   */
  lemma {:induction false} PassKeepsOrder(ws: seq<World>, steps: seq<Step>, begin: nat, n: nat, k: nat)
    requires Trace(ws, steps) && begin < n <= |steps| && steps[begin] == FlushBegin && k == |ws[begin].procs|
    requires ws[begin].b.watch && ws[begin].b.pending != []
    requires forall m :: begin < m < n ==> steps[m] != FlushEnd(k)
    ensures k < |ws[n].procs| && ws[n].procs[k].Flushing? && Subsequence(Remaining(ws[n].procs[k]), ws[begin].b.pending)
    ensures n < |steps| && steps[n] == FlushEnd(k) ==>
      ws[n + 1].b.pending[..|ws[n].procs[k].failed|] == ws[n].procs[k].failed
      && ws[n + 1].b.pending[|ws[n].procs[k].failed|..] == ws[n].b.pending
      && Subsequence(ws[n].procs[k].failed, ws[begin].b.pending)
    decreases n
  {
    hide Subsequence, Enqueue, DeliverStep;
    var taken := ws[begin].b.pending;
    assert Enabled(ws[n - 1], steps[n - 1]) && ws[n] == Next(ws[n - 1], steps[n - 1]);
    if n == begin + 1 {
      assert ws[n].procs[k] == Flushing(taken, []);
      assert [] + taken == taken;
      SubsequenceSelf(taken);
    } else {
      PassKeepsOrder(ws, steps, begin, n - 1, k);
      PassOrderStep(ws[n - 1], steps[n - 1], k, taken);
    }
    if n < |steps| && steps[n] == FlushEnd(k) {
      EndInFront(ws[n], k);
      assert Enabled(ws[n], steps[n]) && ws[n + 1] == Next(ws[n], steps[n]);
      assert ws[n].procs[k].failed + [] == ws[n].procs[k].failed;
    }
  }

  lemma EndInFront(w: World, k: nat)
    requires Enabled(w, FlushEnd(k))
    ensures Next(w, FlushEnd(k)).b.pending == w.procs[k].failed + w.b.pending && w.procs[k].rest == []
  {
    assert [] + w.b.pending == w.b.pending;
  }

  /** A new suspension goes behind those waiting; past 64 the oldest goes; one that waits already stays where it is. */
  lemma EnqueueAtEnd(pending: seq<Entry>, e: Entry)
    requires |pending| <= 64
    ensures var events, r := Events(pending), Events(Enqueue(pending, e).pending);
      && (e.event in events ==> r == events)
      && (e.event !in events && |pending| < 64 ==> r == events + [e.event])
      && (e.event !in events && |pending| == 64 ==> r == events[1..] + [e.event])
  {
    EnqueueErases(pending, e);
    hide Enqueue;
  }

  // ----- retries

  /** Passes that hold a failed delivery and will schedule a retry when they end. */
  function Unhappy(procs: seq<Proc>): (n: nat)
    decreases |procs|
  {
    if procs == [] then 0 else (if procs[0].Flushing? && procs[0].failed != [] then 1 else 0) + Unhappy(procs[1..])
  }

  lemma {:induction false} UnhappyUpdate(procs: seq<Proc>, k: nat, p: Proc)
    requires k < |procs|
    ensures Unhappy(procs[k := p]) + (if procs[k].Flushing? && procs[k].failed != [] then 1 else 0)
         == Unhappy(procs) + if p.Flushing? && p.failed != [] then 1 else 0
    decreases |procs|
  {
    var r := procs[k := p];
    if k == 0 {
      assert r[1..] == procs[1..];
    } else {
      assert r[1..] == procs[1..][k - 1 := p];
      UnhappyUpdate(procs[1..], k - 1, p);
    }
  }

  lemma {:induction false} UnhappyAppend(procs: seq<Proc>, p: Proc)
    requires p.Flushing? ==> p.failed == []
    ensures Unhappy(procs + [p]) == Unhappy(procs)
    decreases |procs|
  {
    if procs == [] {
      assert ([p] + [])[1..] == [];
    } else {
      assert (procs + [p])[1..] == procs[1..] + [p];
      UnhappyAppend(procs[1..], p);
    }
  }

  function Fires(steps: seq<Step>): (n: nat) {
    if steps == [] then 0 else Fires(steps[..|steps| - 1]) + if steps[|steps| - 1].Fire? then 1 else 0
  }

  function Failures(steps: seq<Step>): (n: nat) {
    if steps == [] then 0
    else Failures(steps[..|steps| - 1]) + if steps[|steps| - 1].Deliver? && !steps[|steps| - 1].ok then 1 else 0
  }

  /** Retries that have been asked for and not fired, or will be when a pass ends. */
  function Asked(w: World): (n: nat) {
    |w.b.armed| + Unhappy(w.procs)
  }

  lemma AskedStep(w: World, s: Step)
    requires Enabled(w, s)
    ensures Asked(Next(w, s)) + (if s.Fire? then 1 else 0) <= Asked(w) + if s.Deliver? && !s.ok then 1 else 0
  {
    hide Unhappy, Enqueue;
    match s
    case Commit(event) => UnhappyAppend(w.procs, Delivering(Entry(event, multiset{|w.log|})));
    case Register => UnhappyAppend(w.procs, Registering(w.b.retry, w.b.pending));
    case StopTimer(k) => UnhappyUpdate(w.procs, k, w.procs[k].(stop := None));
    case Deliver(k, ok) => AskedDeliver(w, k, ok);
    case Fire(_) =>
    case FlushBegin => UnhappyAppend(w.procs, Flushing(w.b.pending, []));
    case FlushEnd(k) => UnhappyUpdate(w.procs, k, Idle);
  }

  lemma AskedDeliver(w: World, k: nat, ok: bool)
    requires Enabled(w, Deliver(k, ok))
    ensures Asked(DeliverStep(w, k, ok)) <= Asked(w) + if ok then 0 else 1
  {
    hide Unhappy, Enqueue;
    match w.procs[k]
    case Delivering(_) => UnhappyUpdate(w.procs, k, Idle);
    case Registering(stop, rest) => UnhappyUpdate(w.procs, k, Registering(stop, rest[1..]));
    case Flushing(rest, failed) => UnhappyUpdate(w.procs, k, Flushing(rest[1..], if ok then failed else failed + [rest[0]]));
  }

  /** No retry without a failure: in every run timers fire at most as often as deliveries failed. */
  lemma {:induction false} RetriesAreEarned(ws: seq<World>, steps: seq<Step>, n: nat)
    requires Trace(ws, steps) && n <= |steps|
    ensures Fires(steps[..n]) + Asked(ws[n]) <= Failures(steps[..n])
    decreases n
  {
    hide Next, Enabled, Asked;
    if n == 0 {
      NothingAsked(ws[0]);
    } else {
      RetriesAreEarned(ws, steps, n - 1);
      assert Enabled(ws[n - 1], steps[n - 1]) && ws[n] == Next(ws[n - 1], steps[n - 1]);
      AskedStep(ws[n - 1], steps[n - 1]);
      assert steps[..n][..n - 1] == steps[..n - 1] && steps[..n][n - 1] == steps[n - 1];
    }
  }

  lemma NothingAsked(w: World)
    requires Init(w)
    ensures Asked(w) == 0
  {}

  /** The step schedules a retry: a delivery outside a pass failed, or a pass ends with failures. */
  predicate Schedules(w: World, s: Step) {
    (s.Deliver? && !s.ok && s.k < |w.procs| && !w.procs[s.k].Flushing?)
    || (s.FlushEnd? && s.k < |w.procs| && w.procs[s.k].Flushing? && w.procs[s.k].failed != [])
  }

  /** The backoff counts the retries scheduled since the last registration or clean pass. */
  lemma AttemptsStep(w: World, s: Step)
    requires Enabled(w, s)
    ensures Next(w, s).b.attempts ==
      if Schedules(w, s) then w.b.attempts + 1 else if s.Register? || s.FlushEnd? then 0 else w.b.attempts
  {
    hide Enqueue;
  }

  // ----- runs that break the bound or repeat a suspension

  ghost predicate Reachable(w: World) {
    exists ws: seq<World>, steps: seq<Step> :: Trace(ws, steps) && ws[|steps|] == w
  }

  lemma ReachableStep(w: World, s: Step)
    requires Reachable(w) && Enabled(w, s)
    ensures Reachable(Next(w, s))
  {
    var ws: seq<World>, steps: seq<Step> :| Trace(ws, steps) && ws[|steps|] == w;
    hide Next, Enabled, Init;
    var z := Next(w, s);
    assert Trace(ws + [z], steps + [s]);
    assert (ws + [z])[|steps + [s]|] == z;
  }

  /** One suspension per deployment, told apart by the length of its identifier. */
  function Nth(n: nat): (e: Suspended) {
    Suspended("deploy", seq(n, _ => 'x'))
  }

  function Logged(n: nat): (es: seq<Suspended>)
    ensures |es| == n && forall i :: 0 <= i < n ==> es[i] == Nth(i)
  {
    seq(n, i requires 0 <= i < n => Nth(i))
  }

  function Batch(n: nat): (es: seq<Entry>)
    ensures |es| == n && forall i :: 0 <= i < n ==> es[i] == Entry(Nth(i), multiset{i})
  {
    seq(n, i requires 0 <= i < n => Entry(Nth(i), multiset{i}))
  }

  /** The next of the batch is new to the queue, and there is room for it. */
  lemma BatchGrows(n: nat)
    requires n < MAX_PENDING
    ensures Enqueue(Batch(n), Entry(Nth(n), multiset{n})) == Queued(Batch(n + 1), multiset{})
  {
    assert forall i :: 0 <= i < n ==> |Nth(i).id| == i;
    assert |Nth(n).id| == n;
    hide Nth;
    assert !Waiting(Batch(n), Nth(n));
    assert Batch(n) + [Entry(Nth(n), multiset{n})] == Batch(n + 1);
  }

  /** `n` suspensions committed before there is a kill switch. */
  ghost function Waiters(n: nat): (w: World) {
    World(Backend(false, Batch(n), None, 0, {}, 0), 0, [], Logged(n), multiset{}, multiset{})
  }

  lemma {:induction false} WaitersReachable(n: nat)
    requires n <= MAX_PENDING
    ensures Reachable(Waiters(n))
  {
    hide Reachable, Nth;
    if n == 0 {
      FirstReachable();
    } else {
      WaitersReachable(n - 1);
      BatchGrows(n - 1);
      ReachableStep(Waiters(n - 1), Commit(Nth(n - 1)));
      hide Enqueue, Batch;
      assert Logged(n - 1) + [Nth(n - 1)] == Logged(n);
      assert Next(Waiters(n - 1), Commit(Nth(n - 1))) == Waiters(n);
    }
  }

  lemma FirstReachable()
    ensures Reachable(Waiters(0))
  {
    var none: seq<Step> := [];
    assert Trace([Waiters(0)], none) && [Waiters(0)][|none|] == Waiters(0);
  }

  /** The kill switch registers and its first `m` deliveries fail. */
  ghost function Draining(n: nat, m: nat): (w: World)
    requires m <= n
  {
    World(Backend(true, Batch(m), if m == 0 then None else Some(0), m, if m == 0 then {} else {0}, if m == 0 then 0 else 1),
          0, [Registering(None, Batch(n)[m..])], Logged(n), multiset{}, multiset{})
  }

  lemma {:induction false} DrainingReachable(n: nat, m: nat)
    requires m <= n <= MAX_PENDING
    ensures Reachable(Draining(n, m))
  {
    hide Reachable, Nth;
    if m == 0 {
      WaitersReachable(n);
      ReachableStep(Waiters(n), Register);
      assert Batch(0) == [] && Batch(n)[0..] == Batch(n);
      assert Next(Waiters(n), Register) == Draining(n, 0);
    } else {
      DrainingReachable(n, m - 1);
      var w := Draining(n, m - 1);
      BatchGrows(m - 1);
      ReachableStep(w, Deliver(0, false));
      hide Enqueue, Logged;
      assert Batch(n)[m - 1..][1..] == Batch(n)[m..];
      assert Next(w, Deliver(0, false)).procs == Draining(n, m).procs;
      assert Next(w, Deliver(0, false)) == Draining(n, m);
    }
  }

  /** A pass over `n` suspensions failed to deliver the first `m`; `e` was committed meanwhile and failed, too. */
  ghost function Passing(n: nat, e: Suspended, m: nat): (w: World)
    requires m <= n
  {
    World(Backend(true, [Entry(e, multiset{n})], Some(1), n + 1, {1}, 2),
          0, [Registering(None, []), Flushing(Batch(n)[m..], Batch(m)), Idle], Logged(n) + [e], multiset{}, multiset{})
  }

  lemma {:induction false} PassingReachable(n: nat, e: Suspended, m: nat)
    requires 0 < n <= MAX_PENDING && m <= n
    ensures Reachable(Passing(n, e, m))
  {
    hide Reachable, Nth, Enqueue, Logged;
    if m == 0 {
      PassBegins(n, e);
    } else {
      PassingReachable(n, e, m - 1);
      var w := Passing(n, e, m - 1);
      ReachableStep(w, Deliver(1, false));
      assert Batch(n)[m - 1..][1..] == Batch(n)[m..];
      assert Batch(m - 1) + [Batch(n)[m - 1]] == Batch(m);
      assert Next(w, Deliver(1, false)).procs == Passing(n, e, m).procs;
    }
  }

  lemma PassBegins(n: nat, e: Suspended)
    requires 0 < n <= MAX_PENDING
    ensures Reachable(Passing(n, e, 0))
  {
    hide Reachable, Nth, Logged;
    DrainingReachable(n, n);
    var w := Draining(n, n);
    ReachableStep(w, Fire(0));
    var fired := Next(w, Fire(0));
    ReachableStep(fired, FlushBegin);
    var begun := Next(fired, FlushBegin);
    assert Batch(n)[n..] == [] && Batch(0) == [] && Batch(n)[0..] == Batch(n);
    assert begun.procs == [Registering(None, []), Flushing(Batch(n), [])];
    ReachableStep(begun, Commit(e));
    var committed := Next(begun, Commit(e));
    ReachableStep(committed, Deliver(2, false));
    assert Next(committed, Deliver(2, false)).procs == Passing(n, e, 0).procs;
    assert Next(committed, Deliver(2, false)) == Passing(n, e, 0);
  }

  /** A run from a new backend after which 65 suspensions are queued. */
  lemma BoundCanBreak()
    ensures exists w: World :: Reachable(w) && |w.b.pending| == MAX_PENDING + 1
  {
    hide Reachable, Batch;
    var w := Passing(MAX_PENDING, Nth(MAX_PENDING), MAX_PENDING);
    PassingReachable(MAX_PENDING, Nth(MAX_PENDING), MAX_PENDING);
    ReachableStep(w, FlushEnd(1));
    assert |Next(w, FlushEnd(1)).b.pending| == MAX_PENDING + 1;
  }

  /** A run from a new backend after which one suspension is queued twice. */
  lemma RepeatCanWait()
    ensures exists w: World :: Reachable(w) && Events(w.b.pending) == [Nth(0), Nth(0)]
  {
    hide Reachable, Nth;
    var w := Passing(1, Nth(0), 1);
    PassingReachable(1, Nth(0), 1);
    ReachableStep(w, FlushEnd(1));
    assert Events(Next(w, FlushEnd(1)).b.pending) == [Nth(0), Nth(0)];
  }

  // ----- the backend object: one method per lock region

  function RequeuePlain(b: Backend<Suspended>, e: Suspended): (r: Backend<Suspended>) {
    Schedule(b.(pending := EnqueuePlain(b.pending, e)))
  }

  /** Forgetting the bookkeeping, every lock region of the world is one of the methods below. */
  lemma RegionsErase(w: World, e: Entry, failed: seq<Entry>)
    ensures Erase(Requeue(w, e).b) == RequeuePlain(Erase(w.b), e.event)
    ensures Erase(Take(w.b)) == Take(Erase(w.b))
    ensures Erase(TakeForWatch(w.b)) == TakeForWatch(Erase(w.b))
    ensures Erase(Rejoin(w.b, failed)) == Rejoin(Erase(w.b), Events(failed))
  {
    EnqueueErases(w.b.pending, e);
    assert Events([]) == [];
    assert Events(failed + w.b.pending) == Events(failed) + Events(w.b.pending);
  }

  class SuspensionBackend {
    var watch: bool
    var pending: seq<Suspended>
    var retry: Option<nat>
    var attempts: nat
    var armed: set<nat>
    var next: nat

    ghost function View(): (b: Backend<Suspended>)
      reads this
    {
      Backend(watch, pending, retry, attempts, armed, next)
    }

    constructor ()
      ensures View() == Backend(false, [], None, 0, {}, 0)
    {
      watch, pending, retry, attempts, armed, next := false, [], None, 0, {}, 0;
    }

    method EnqueueLocked(e: Suspended)
      modifies this`pending
      ensures pending == EnqueuePlain(old(pending), e)
    {
      for i := 0 to |pending|
        invariant pending == old(pending) && e !in pending[..i]
      {
        if pending[i] == e {
          return;
        }
      }
      assert pending == pending[..|pending|];
      if |pending| >= MAX_PENDING {
        pending := pending[1..];
      }
      pending := pending + [e];
    }

    method ScheduleRetryLocked()
      modifies this
      ensures View() == Schedule(old(View()))
    {
      attempts := attempts + 1;
      if retry.None? {
        retry, next := Some(next), next + 1;
      }
      armed := armed + {retry.value};
    }

    method RequeueEvent(e: Suspended)
      modifies this
      ensures View() == RequeuePlain(old(View()), e)
    {
      EnqueueLocked(e);
      ScheduleRetryLocked();
    }

    /** The lock region of a commit: held back, or to be delivered by the caller. */
    method Committed(e: Suspended) returns (deliver: bool)
      modifies this
      ensures deliver == old(watch)
      ensures View() == if deliver then old(View()) else old(View()).(pending := EnqueuePlain(old(pending), e))
    {
      deliver := watch;
      if !deliver {
        EnqueueLocked(e);
      }
    }

    method StartWatcher() returns (taken: seq<Suspended>, timer: Option<nat>)
      modifies this
      ensures View() == TakeForWatch(old(View())) && taken == old(pending) && timer == old(retry)
    {
      taken, timer := pending, retry;
      watch, pending, attempts, retry := true, [], 0, None;
    }

    method FlushTake() returns (taken: seq<Suspended>)
      modifies this
      ensures View() == Take(old(View()))
      ensures taken == if watch then old(pending) else []
    {
      taken := if watch then pending else [];
      pending, retry := [], None;
    }

    method FlushFinish(failed: seq<Suspended>)
      modifies this
      ensures View() == Rejoin(old(View()), failed)
    {
      if |failed| > 0 {
        pending := failed + pending;
        ScheduleRetryLocked();
      } else {
        attempts := 0;
      }
    }
  }
}
