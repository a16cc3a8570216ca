/**
 The per-session timer manager: timers fire concurrently, a dispatcher delivers
 their events one at a time, and the guest may start and cancel timers meanwhile.
 Each region under the lock and each channel operation is one atomic step.
 */
module Timers {
  const MAX_ID: nat := 0x7FFF_FFFF
  const MAX_ACTIVE: nat := 64
  const MIN_DELAY := 1_000_000
  const MIN_EVERY := 10_000_000
  const MAX_DELAY := 86_400_000_000_000
  const ERR_INVALID := -1
  const ERR_LIMIT := -2

  /** Where the dispatch loop stands. `Sent` is between handing over an event and taking the lock to pop it. */
  datatype Dispatcher = AtTop | Waiting | Sending(id: nat) | Sent(id: nat) | Stopped

  /**
   `signal` is the one-slot wake-up channel, `signallers` the fired timers that have
   left the lock but not yet signalled. `enqueued` and `delivered` record history.
   */
  datatype State = State(next: nat, active: set<nat>, pending: seq<nat>, queued: set<nat>,
                         signal: bool, signallers: nat, disp: Dispatcher,
                         enqueued: multiset<nat>, delivered: multiset<nat>)

  const INITIAL := State(0, {}, [], {}, false, 0, AtTop, multiset{}, multiset{})

  // ----- choosing an identifier

  /** `k` is passed over when the search goes upwards from `next` to `id`, wrapping after `MAX_ID`. */
  predicate Passed(next: nat, k: nat, id: nat) {
    1 <= k <= MAX_ID && if next < id then next < k < id else k > next || k < id
  }

  /** `id` is the first identifier after `next` that is not in use. */
  ghost predicate FirstFree(next: nat, active: set<nat>, id: nat) {
    && 1 <= id <= MAX_ID && id !in active
    && forall k :: Passed(next, k, id) ==> k in active
  }

  lemma FirstFreeUnique(next: nat, active: set<nat>, a: nat, b: nat)
    requires FirstFree(next, active, a) && FirstFree(next, active, b)
    ensures a == b
  {
  }

  ghost function Above(a: nat, b: nat): (s: set<nat>) {
    set i: nat | i <= b && Within(a, i, b)
  }

  predicate Within(a: nat, i: nat, b: nat) {
    a < i <= b
  }

  lemma {:induction false} AboveSize(a: nat, b: nat)
    requires a <= b
    ensures |Above(a, b)| == b - a
    decreases b - a
  {
    if a < b {
      AboveSize(a, b - 1);
      assert Above(a, b) == Above(a, b - 1) + {b};
    } else {
      assert Above(a, b) == {};
    }
  }

  lemma SubsetSize<T>(a: set<T>, b: set<T>)
    requires a <= b
    ensures |a| <= |b|
  {
    assert b == a + (b - a);
  }

  /** Everything tried so far is in use; the number of identifiers tried is what the iteration count allows. */
  lemma TriedSize(from: nat, next: nat, wrapped: bool, active: set<nat>)
    requires from <= MAX_ID && next <= MAX_ID && |active| < MAX_ID
    requires if wrapped then next <= from && Above(from, MAX_ID) + Above(0, next) <= active
             else from <= next && Above(from, next) <= active
    ensures if wrapped then next < from && MAX_ID - from + next <= |active| else next - from <= |active|
  {
    if wrapped {
      AboveSize(from, MAX_ID);
      AboveSize(0, next);
      SubsetSize(Above(from, MAX_ID) + Above(0, next), active);
      assert Above(from, MAX_ID) !! Above(0, next);
    } else {
      AboveSize(from, next);
      SubsetSize(Above(from, next), active);
    }
  }

  /** The identifier search of `Start`: bounded by the number of timers in use, across the wrap too. */
  method FindId(from: nat, active: set<nat>) returns (id: nat, iterations: nat)
    requires from <= MAX_ID && |active| < MAX_ID
    ensures FirstFree(from, active, id)
    ensures iterations <= |active| + 2
  {
    var next: nat := from;
    ghost var wrapped := false;
    iterations := 0;
    while true
      invariant next <= MAX_ID
      invariant if wrapped then next < from && Above(from, MAX_ID) + Above(0, next) <= active
                else from <= next && Above(from, next) <= active
      invariant iterations == if wrapped then MAX_ID - from + 1 + next else next - from
      decreases !wrapped, MAX_ID - next
    {
      TriedSize(from, next, wrapped, active);
      next := next + 1;
      iterations := iterations + 1;
      if next != 0 && next <= MAX_ID {
        if next !in active {
          break;
        }
      }
      if next > MAX_ID {
        assert Above(from, MAX_ID) + Above(0, 0) <= active;
        TriedSize(from, 0, true, active);
        next, wrapped := 0, true;
      } else if wrapped {
        assert Above(0, next) == Above(0, next - 1) + {next};
        TriedSize(from, next, true, active);
      } else {
        assert Above(from, next) == Above(from, next - 1) + {next};
      }
    }
    id := next;
    forall k | Passed(from, k, id)
      ensures k in active
    {
      if wrapped {
        assert k in Above(from, MAX_ID) + Above(0, next - 1);
      } else {
        assert k in Above(from, next - 1);
      }
    }
  }

  // ----- steps

  predicate DelayOk(delay: int, recurring: bool) {
    (if recurring then MIN_EVERY else MIN_DELAY) <= delay <= MAX_DELAY
  }

  /** A granted start; a refused one changes nothing. */
  function Started(s: State, id: nat): (r: State) {
    s.(next := id, active := s.active + {id})
  }

  function Enqueue(s: State, id: nat, recurring: bool): (r: State) {
    if id !in s.active then s
    else
      var u := if recurring then s else s.(active := s.active - {id});
      var v := if id in u.queued then u
               else u.(queued := u.queued + {id}, pending := u.pending + [id], enqueued := u.enqueued + multiset{id});
      v.(signallers := v.signallers + 1)
  }

  function Signal(s: State): (r: State)
    requires s.signallers > 0
  {
    s.(signallers := s.signallers - 1, signal := true)
  }

  function Look(s: State): (r: State) {
    s.(disp := if s.pending == [] || s.pending[0] == 0 then Waiting else Sending(s.pending[0]))
  }

  function Wake(s: State): (r: State) {
    s.(signal := false, disp := AtTop)
  }

  function Deliver(s: State): (r: State)
    requires s.disp.Sending?
  {
    s.(delivered := s.delivered + multiset{s.disp.id}, disp := Sent(s.disp.id))
  }

  function Pop(s: State): (r: State)
    requires s.disp.Sent?
  {
    var id := s.disp.id;
    if s.pending != [] && s.pending[0] == id then
      s.(pending := s.pending[1..], queued := s.queued - {id}, disp := AtTop)
    else s.(disp := AtTop)
  }

  /** The sequence without the first occurrence of `id`. */
  function Without(xs: seq<nat>, id: nat): (r: seq<nat>) {
    if xs == [] then [] else if xs[0] == id then xs[1..] else [xs[0]] + Without(xs[1..], id)
  }

  function Cancelled(s: State, id: nat): (r: State) {
    s.(active := s.active - {id}, queued := s.queued - {id}, pending := Without(s.pending, id))
  }

  function Closed(s: State): (r: State) {
    s.(active := {}, pending := [], queued := {})
  }

  datatype Step =
    | DoStart(id: nat)
    | DoEnqueue(id: nat, recurring: bool)
    | DoSignal
    | DoLook
    | DoWake
    | DoDeliver
    | DoPop
    | DoStop
    | DoCancel(id: nat)
    | DoClose

  ghost predicate Enabled(s: State, st: Step) {
    match st
    case DoStart(id) => |s.active| < MAX_ACTIVE && FirstFree(s.next, s.active, id)
    case DoEnqueue(_, _) => true
    case DoSignal => s.signallers > 0
    case DoLook => s.disp.AtTop?
    case DoWake => s.disp.Waiting? && s.signal
    case DoDeliver => s.disp.Sending?
    case DoPop => s.disp.Sent?
    case DoStop => s.disp.Waiting? || s.disp.Sending?
    case DoCancel(_) => true
    case DoClose => true
  }

  ghost function Next(s: State, st: Step): (r: State)
    requires Enabled(s, st)
  {
    match st
    case DoStart(id) => Started(s, id)
    case DoEnqueue(id, recurring) => Enqueue(s, id, recurring)
    case DoSignal => Signal(s)
    case DoLook => Look(s)
    case DoWake => Wake(s)
    case DoDeliver => Deliver(s)
    case DoPop => Pop(s)
    case DoStop => s.(disp := Stopped)
    case DoCancel(id) => Cancelled(s, id)
    case DoClose => Closed(s)
  }

  // ----- invariants

  predicate NoDup(xs: seq<nat>) {
    forall i, k :: 0 <= i < k < |xs| ==> xs[i] != xs[k]
  }

  ghost function Elements(xs: seq<nat>): (s: set<nat>) {
    set x | x in xs
  }

  predicate AtFront(s: State, id: nat) {
    s.pending != [] && s.pending[0] == id
  }

  /** Deliveries of `id` still owed: its pending entry, plus an event being handed over that no longer has one. */
  function Owed(s: State, id: nat): (n: int) {
    (if id in s.pending then 1 else 0) + (if s.disp == Sending(id) then 1 else 0)
    - (if (s.disp == Sending(id) || s.disp == Sent(id)) && AtFront(s, id) then 1 else 0)
  }

  ghost predicate QueueOk(s: State) {
    && s.queued == Elements(s.pending) && NoDup(s.pending) && 0 !in s.pending
    && |s.active| <= MAX_ACTIVE && s.next <= MAX_ID
    && (forall id :: id in s.active ==> 1 <= id <= MAX_ID)
  }

  /** A dispatcher that waits while work is pending has a wake-up buffered or about to be sent. */
  ghost predicate NoLostWakeup(s: State) {
    s.disp.Waiting? && s.pending != [] ==> s.signal || s.signallers > 0
  }

  ghost predicate NotOverDelivered(s: State) {
    forall id: nat :: s.delivered[id] + Owed(s, id) <= s.enqueued[id]
  }

  ghost predicate Inv(s: State) {
    QueueOk(s) && NoLostWakeup(s) && NotOverDelivered(s)
  }

  lemma NoDupTail(xs: seq<nat>)
    requires NoDup(xs) && xs != []
    ensures NoDup(xs[1..]) && xs[0] !in xs[1..] && Elements(xs[1..]) == Elements(xs) - {xs[0]}
  {
    assert xs == [xs[0]] + xs[1..];
  }

  lemma NoDupCons(x: nat, xs: seq<nat>)
    requires NoDup(xs) && x !in xs
    ensures NoDup([x] + xs)
  {
  }

  lemma NoDupSnoc(xs: seq<nat>, x: nat)
    requires NoDup(xs) && x !in xs
    ensures NoDup(xs + [x]) && Elements(xs + [x]) == Elements(xs) + {x}
  {
  }

  lemma {:induction false} WithoutFacts(xs: seq<nat>, id: nat)
    requires NoDup(xs)
    ensures NoDup(Without(xs, id)) && Elements(Without(xs, id)) == Elements(xs) - {id}
    ensures forall x :: x in Without(xs, id) <==> x in xs && x != id
    ensures xs != [] && xs[0] != id ==> Without(xs, id) != [] && Without(xs, id)[0] == xs[0]
    decreases |xs|
  {
    if xs != [] {
      NoDupTail(xs);
      if xs[0] != id {
        WithoutFacts(xs[1..], id);
        NoDupCons(xs[0], Without(xs[1..], id));
      }
      assert forall x :: x in xs <==> x == xs[0] || x in xs[1..];
    }
  }

  lemma ActiveGrows(s: State, id: nat)
    requires QueueOk(s) && |s.active| < MAX_ACTIVE && FirstFree(s.next, s.active, id)
    ensures QueueOk(Started(s, id))
  {
    hide FirstFree;
    assert 1 <= id <= MAX_ID && id !in s.active by { FreeFacts(s, id); }
  }

  lemma FreeFacts(s: State, id: nat)
    requires FirstFree(s.next, s.active, id)
    ensures 1 <= id <= MAX_ID && id !in s.active
  {
  }

  lemma QueueEnqueue(s: State, id: nat, recurring: bool)
    requires QueueOk(s)
    ensures QueueOk(Enqueue(s, id, recurring))
  {
    if id in s.active {
      SubsetSize(s.active - {id}, s.active);
      if id !in s.queued {
        NoDupSnoc(s.pending, id);
      }
    }
  }

  lemma QueueCancel(s: State, id: nat)
    requires QueueOk(s)
    ensures QueueOk(Cancelled(s, id))
  {
    SubsetSize(s.active - {id}, s.active);
    WithoutFacts(s.pending, id);
  }

  lemma QueuePop(s: State)
    requires QueueOk(s) && s.disp.Sent?
    ensures QueueOk(Pop(s))
  {
    if AtFront(s, s.disp.id) {
      NoDupTail(s.pending);
    }
  }

  lemma QueueStep(s: State, st: Step)
    requires QueueOk(s) && Enabled(s, st)
    ensures QueueOk(Next(s, st))
  {
    hide NoDup, FirstFree;
    match st {
      case DoStart(id) => ActiveGrows(s, id);
      case DoEnqueue(id, recurring) => QueueEnqueue(s, id, recurring);
      case DoCancel(id) => QueueCancel(s, id);
      case DoPop => QueuePop(s);
      case DoClose => assert NoDup([]) by { EmptyNoDup(); }
      case _ =>
    }
  }

  lemma EmptyNoDup()
    ensures NoDup([]) && Elements([]) == {}
  {
  }

  lemma WakeupStep(s: State, st: Step)
    requires QueueOk(s) && NoLostWakeup(s) && Enabled(s, st)
    ensures NoLostWakeup(Next(s, st))
  {
    hide NoDup, FirstFree;
    match st {
      case DoCancel(id) =>
        WithoutFacts(s.pending, id);
      case _ =>
    }
  }

  /** The accounting of one identifier across one step. */
  lemma DeliveryOf(s: State, st: Step, id: nat)
    requires QueueOk(s) && Enabled(s, st)
    requires s.delivered[id] + Owed(s, id) <= s.enqueued[id]
    ensures Next(s, st).delivered[id] + Owed(Next(s, st), id) <= Next(s, st).enqueued[id]
  {
    hide NoDup, FirstFree;
    match st {
      case DoEnqueue(k, recurring) => EnqueueOf(s, k, recurring, id);
      case DoCancel(k) =>
        WithoutFacts(s.pending, k);
      case DoPop =>
        if AtFront(s, s.disp.id) {
          NoDupTail(s.pending);
          assert id in s.pending <==> id == s.pending[0] || id in s.pending[1..];
        }
      case _ =>
    }
  }

  lemma EnqueueOf(s: State, k: nat, recurring: bool, id: nat)
    requires QueueOk(s) && s.delivered[id] + Owed(s, id) <= s.enqueued[id]
    ensures var t := Enqueue(s, k, recurring); t.delivered[id] + Owed(t, id) <= t.enqueued[id]
  {
    hide NoDup;
    if k in s.active && k !in s.queued {
      var p := s.pending + [k];
      assert id in p <==> id in s.pending || id == k;
      assert s.pending != [] ==> p[0] == s.pending[0];
    }
  }

  lemma DeliveryStep(s: State, st: Step)
    requires QueueOk(s) && NotOverDelivered(s) && Enabled(s, st)
    ensures NotOverDelivered(Next(s, st))
  {
    forall id: nat
      ensures Next(s, st).delivered[id] + Owed(Next(s, st), id) <= Next(s, st).enqueued[id]
    {
      assert s.delivered[id] + Owed(s, id) <= s.enqueued[id];
      DeliveryOf(s, st, id);
    }
  }

  ghost predicate Trace(s: State, steps: seq<Step>, z: State)
    decreases |steps|
  {
    if steps == [] then s == z else Enabled(s, steps[0]) && Trace(Next(s, steps[0]), steps[1..], z)
  }

  lemma {:induction false} TraceInv(s: State, steps: seq<Step>, z: State)
    requires Inv(s) && Trace(s, steps, z)
    ensures Inv(z)
    decreases |steps|
  {
    if steps != [] {
      QueueStep(s, steps[0]);
      WakeupStep(s, steps[0]);
      DeliveryStep(s, steps[0]);
      TraceInv(Next(s, steps[0]), steps[1..], z);
    }
  }

  /** In every run from a new manager the queue, the wake-up and the delivery invariants hold. */
  lemma EveryRun(steps: seq<Step>, z: State)
    requires Trace(INITIAL, steps, z)
    ensures z.queued == Elements(z.pending) && NoDup(z.pending) && 0 !in z.pending && |z.active| <= MAX_ACTIVE
    ensures z.disp.Waiting? && z.pending != [] ==> z.signal || z.signallers > 0
    ensures forall id: nat :: z.delivered[id] <= z.enqueued[id]
  {
    assert Inv(INITIAL);
    TraceInv(INITIAL, steps, z);
    forall id: nat
      ensures z.delivered[id] <= z.enqueued[id]
    {
      assert z.delivered[id] + Owed(z, id) <= z.enqueued[id];
      assert AtFront(z, id) ==> id in z.pending;
    }
  }

  /**
   A cancelled one-shot that the dispatcher has already picked up is still
   delivered: cancellation takes back the queue entry, not the event in hand.
   */
  lemma CancelMayBeTooLate()
    ensures exists steps: seq<Step>, z: State ::
              Trace(INITIAL, steps, z) && |steps| > 0 && steps[|steps| - 1] == DoDeliver
              && (exists i :: 0 <= i < |steps| - 1 && steps[i] == DoCancel(1)) && z.delivered[1] == 1
  {
    var steps := [DoStart(1), DoEnqueue(1, false), DoLook, DoCancel(1), DoDeliver];
    var s1 := Started(INITIAL, 1);
    var s2 := Enqueue(s1, 1, false);
    var s3 := Look(s2);
    var s4 := Cancelled(s3, 1);
    var s5 := Deliver(s4);
    assert FirstFree(0, {}, 1);
    assert s2.pending == [1] && s3.disp == Sending(1);
    assert steps[1..][1..][1..][1..][1..] == [];
    assert Trace(s5, [], s5);
    assert Trace(s4, steps[4..], s5) by { assert steps[4..] == [DoDeliver]; }
    assert Trace(s3, steps[3..], s5) by { assert steps[3..][1..] == steps[4..]; }
    assert Trace(s2, steps[2..], s5) by { assert steps[2..][1..] == steps[3..]; }
    assert Trace(s1, steps[1..], s5) by { assert steps[1..][1..] == steps[2..]; }
    assert Trace(INITIAL, steps, s5);
    assert steps[3] == DoCancel(1);
  }

  // ----- what a cancel prevents

  ghost predicate NoRestart(steps: seq<Step>, id: nat) {
    forall k :: 0 <= k < |steps| ==> steps[k] != DoStart(id)
  }

  /** Neither running nor queued: the only event that can still come is one in the dispatcher's hand. */
  ghost predicate Gone(s: State, id: nat) {
    id !in s.active && id !in s.pending
  }

  function InHand(s: State, id: nat): (n: nat) {
    if s.disp == Sending(id) then 1 else 0
  }

  lemma GoneStep(s: State, st: Step, id: nat)
    requires QueueOk(s) && Enabled(s, st) && Gone(s, id) && st != DoStart(id) && id > 0
    ensures Gone(Next(s, st), id)
    ensures Next(s, st).delivered[id] + InHand(Next(s, st), id) <= s.delivered[id] + InHand(s, id)
  {
    match st {
      case DoCancel(k) => GoneCancel(s, k, id);
      case DoEnqueue(k, recurring) => GoneEnqueue(s, k, recurring, id);
      case _ => hide QueueOk, FirstFree, Without;
    }
  }

  lemma GoneCancel(s: State, k: nat, id: nat)
    requires QueueOk(s) && Gone(s, id)
    ensures Gone(Cancelled(s, k), id)
  {
    WithoutFacts(s.pending, k);
    hide Without, NoDup;
  }

  lemma GoneEnqueue(s: State, k: nat, recurring: bool, id: nat)
    requires Gone(s, id)
    ensures Gone(Enqueue(s, k, recurring), id)
    ensures Enqueue(s, k, recurring).disp == s.disp && Enqueue(s, k, recurring).delivered == s.delivered
  {
    assert forall x :: x in s.pending + [k] <==> x in s.pending || x == k;
  }

  lemma {:induction false} GoneRun(s: State, steps: seq<Step>, z: State, id: nat)
    requires QueueOk(s) && Gone(s, id) && id > 0 && NoRestart(steps, id) && Trace(s, steps, z)
    ensures z.delivered[id] + InHand(z, id) <= s.delivered[id] + InHand(s, id)
    decreases |steps|
  {
    hide QueueOk, Enabled, Next;
    if steps != [] {
      assert steps[0] != DoStart(id);
      GoneStep(s, steps[0], id);
      QueueStep(s, steps[0]);
      assert forall k :: 0 <= k < |steps| - 1 ==> steps[1..][k] == steps[k + 1];
      GoneRun(Next(s, steps[0]), steps[1..], z, id);
    }
  }

  ghost predicate DeliversLater(s: State, id: nat) {
    exists steps: seq<Step>, z: State :: Trace(s, steps, z) && NoRestart(steps, id) && z.delivered[id] > s.delivered[id]
  }

  /**
   A cancelled timer that is not started again is still delivered in some continuation
   if and only if the dispatcher held its event when it was cancelled, and then it is
   delivered at most once.
   */
  lemma CancelIff(s: State, id: nat)
    requires QueueOk(s) && id > 0
    ensures DeliversLater(Cancelled(s, id), id) <==> s.disp == Sending(id)
    ensures forall steps: seq<Step>, z: State :: Trace(Cancelled(s, id), steps, z) && NoRestart(steps, id) ==>
              z.delivered[id] <= s.delivered[id] + 1
  {
    var c := Cancelled(s, id);
    QueueCancel(s, id);
    WithoutFacts(s.pending, id);
    forall steps: seq<Step>, z: State | Trace(c, steps, z) && NoRestart(steps, id)
      ensures z.delivered[id] <= c.delivered[id] + InHand(c, id)
    {
      GoneRun(c, steps, z, id);
    }
    if s.disp == Sending(id) {
      var steps, z := [DoDeliver], Deliver(c);
      assert steps[1..] == [] && Trace(z, [], z);
      assert Trace(c, steps, z) && NoRestart(steps, id);
    }
  }

  // ----- order and conservation

  /** The identifiers a step puts on the queue, and those it hands over. */
  ghost function EnqueuesOf(s: State, st: Step): (ids: seq<nat>) {
    if st.DoEnqueue? && st.id in s.active && st.id !in s.queued then [st.id] else []
  }

  ghost function DeliveriesOf(s: State, st: Step): (ids: seq<nat>) {
    if st.DoDeliver? && s.disp.Sending? then [s.disp.id] else []
  }

  ghost function EnqueueLog(s: State, steps: seq<Step>): (ids: seq<nat>)
    decreases |steps|
  {
    if steps == [] || !Enabled(s, steps[0]) then []
    else EnqueuesOf(s, steps[0]) + EnqueueLog(Next(s, steps[0]), steps[1..])
  }

  ghost function DeliveryLog(s: State, steps: seq<Step>): (ids: seq<nat>)
    decreases |steps|
  {
    if steps == [] || !Enabled(s, steps[0]) then []
    else DeliveriesOf(s, steps[0]) + DeliveryLog(Next(s, steps[0]), steps[1..])
  }

  /** What is queued and not yet handed over. */
  function Undelivered(s: State): (ids: seq<nat>) {
    if s.disp.Sent? && AtFront(s, s.disp.id) then s.pending[1..] else s.pending
  }

  /** The event in hand is the head of the queue, as it is until something is cancelled or closed. */
  ghost predicate HandIsHead(s: State) {
    (s.disp.Sending? || s.disp.Sent?) ==> AtFront(s, s.disp.id)
  }

  predicate Withdraws(st: Step) {
    st.DoCancel? || st.DoClose?
  }

  lemma OrderStep(s: State, st: Step)
    requires Enabled(s, st) && HandIsHead(s) && !Withdraws(st)
    ensures HandIsHead(Next(s, st))
    ensures Undelivered(s) + EnqueuesOf(s, st) == DeliveriesOf(s, st) + Undelivered(Next(s, st))
  {
    hide FirstFree;
    match st {
      case DoEnqueue(id, recurring) => OrderEnqueue(s, id, recurring);
      case DoDeliver =>
        assert s.pending == [s.disp.id] + s.pending[1..];
      case _ =>
    }
  }

  lemma OrderEnqueue(s: State, id: nat, recurring: bool)
    requires HandIsHead(s)
    ensures HandIsHead(Enqueue(s, id, recurring))
    ensures Undelivered(s) + EnqueuesOf(s, DoEnqueue(id, recurring)) == Undelivered(Enqueue(s, id, recurring))
  {
    var longer := s.pending + [id];
    assert s.pending != [] ==> longer[0] == s.pending[0] && longer[1..] == s.pending[1..] + [id];
  }

  /**
   Delivery is first in, first out and loses nothing: as long as nothing is cancelled or
   closed, the events handed over, followed by those still queued, are the events
   enqueued, in order.
   */
  lemma {:induction false} FirstInFirstOut(s: State, steps: seq<Step>, z: State)
    requires HandIsHead(s) && Trace(s, steps, z)
    requires forall k :: 0 <= k < |steps| ==> !Withdraws(steps[k])
    ensures Undelivered(s) + EnqueueLog(s, steps) == DeliveryLog(s, steps) + Undelivered(z)
    decreases |steps|
  {
    hide Enabled, Next, EnqueuesOf, DeliveriesOf, Undelivered, HandIsHead;
    if steps != [] {
      var t := Next(s, steps[0]);
      OrderStep(s, steps[0]);
      assert forall k :: 0 <= k < |steps| - 1 ==> steps[1..][k] == steps[k + 1];
      FirstInFirstOut(t, steps[1..], z);
      var rest := EnqueueLog(t, steps[1..]);
      assert Undelivered(s) + (EnqueuesOf(s, steps[0]) + rest) == (Undelivered(s) + EnqueuesOf(s, steps[0])) + rest;
      assert DeliveriesOf(s, steps[0]) + (Undelivered(t) + rest)
          == (DeliveriesOf(s, steps[0]) + Undelivered(t)) + rest;
      assert DeliveriesOf(s, steps[0]) + (DeliveryLog(t, steps[1..]) + Undelivered(z))
          == (DeliveriesOf(s, steps[0]) + DeliveryLog(t, steps[1..])) + Undelivered(z);
    }
  }

  /** Whether the entry of `id` on the queue is the one the dispatcher is handing over. */
  predicate Held(s: State, id: nat) {
    (s.disp == Sending(id) || s.disp == Sent(id)) && AtFront(s, id)
  }

  /** The event in hand has lost its entry: it was cancelled, and the identifier may be in use again. */
  predicate Stale(s: State, id: nat) {
    (s.disp == Sending(id) || s.disp == Sent(id)) && !AtFront(s, id)
  }

  /** The events of `id` a step takes back: an entry cancelled or cleared that nobody holds, or a hand-over given up. */
  ghost function Withdrawn(s: State, st: Step, id: nat): (n: nat) {
    match st
    case DoCancel(k) => if k == id && id in s.pending && !Held(s, id) then 1 else 0
    case DoClose => if id in s.pending && !Held(s, id) then 1 else 0
    case DoStop => if s.disp == Sending(id) && !AtFront(s, id) then 1 else 0
    case _ => 0
  }

  /** A new entry that comes to the head while a stale event of the same identifier is in hand is taken for its own. */
  ghost function Absorbed(s: State, st: Step, id: nat): (n: nat)
    requires Enabled(s, st)
  {
    if Stale(s, id) && Held(Next(s, st), id) then 1 else 0
  }

  /** The books of one identifier balance across every step. */
  lemma LedgerStep(s: State, st: Step, id: nat)
    requires QueueOk(s) && Enabled(s, st) && id > 0
    ensures Next(s, st).enqueued[id] + s.delivered[id] + Owed(s, id)
         == s.enqueued[id] + Next(s, st).delivered[id] + Owed(Next(s, st), id) + Withdrawn(s, st, id) + Absorbed(s, st, id)
  {
    match st {
      case DoEnqueue(k, recurring) => LedgerEnqueue(s, k, recurring, id);
      case DoCancel(k) => LedgerCancel(s, k, id);
      case DoPop => LedgerPop(s, id);
      case _ => hide QueueOk, FirstFree;
    }
  }

  lemma LedgerEnqueue(s: State, k: nat, recurring: bool, id: nat)
    requires QueueOk(s)
    ensures var r := Enqueue(s, k, recurring);
      && r.delivered == s.delivered
      && r.enqueued[id] + Owed(s, id) == s.enqueued[id] + Owed(r, id) + if Stale(s, id) && Held(r, id) then 1 else 0
  {
    assert k in s.queued <==> k in s.pending;
    hide QueueOk;
    if k in s.active && k !in s.queued {
      var r := Enqueue(s, k, recurring);
      assert r.pending == s.pending + [k] && r.disp == s.disp && r.enqueued == s.enqueued + multiset{k};
      OwedAppend(s, r, k, id);
    }
  }

  lemma OwedAppend(s: State, r: State, k: nat, id: nat)
    requires k !in s.pending && r.pending == s.pending + [k] && r.disp == s.disp
    ensures Owed(r, id) + (if Stale(s, id) && Held(r, id) then 1 else 0) == Owed(s, id) + if id == k then 1 else 0
  {
    assert s.pending != [] ==> r.pending[0] == s.pending[0];
    assert id in r.pending <==> id in s.pending || id == k;
    if s.pending == [] {
      assert r.pending[0] == k;
    }
  }

  lemma LedgerCancel(s: State, k: nat, id: nat)
    requires QueueOk(s)
    ensures var r := Cancelled(s, k);
      Owed(s, id) == Owed(r, id) + Withdrawn(s, DoCancel(k), id) + if Stale(s, id) && Held(r, id) then 1 else 0
  {
    WithoutFacts(s.pending, k);
    hide Without, NoDup;
  }

  lemma LedgerPop(s: State, id: nat)
    requires QueueOk(s) && s.disp.Sent?
    ensures Owed(s, id) == Owed(Pop(s), id)
  {
    if AtFront(s, s.disp.id) {
      NoDupTail(s.pending);
      assert id in s.pending <==> id == s.pending[0] || id in s.pending[1..];
    }
  }

  ghost function WithdrawnIn(s: State, steps: seq<Step>, id: nat): (n: nat)
    decreases |steps|
  {
    if steps == [] || !Enabled(s, steps[0]) then 0
    else Withdrawn(s, steps[0], id) + WithdrawnIn(Next(s, steps[0]), steps[1..], id)
  }

  ghost function AbsorbedIn(s: State, steps: seq<Step>, id: nat): (n: nat)
    decreases |steps|
  {
    if steps == [] || !Enabled(s, steps[0]) then 0
    else Absorbed(s, steps[0], id) + AbsorbedIn(Next(s, steps[0]), steps[1..], id)
  }

  lemma {:induction false} LedgerRun(s: State, steps: seq<Step>, z: State, id: nat)
    requires QueueOk(s) && id > 0 && Trace(s, steps, z)
    ensures z.enqueued[id] + s.delivered[id] + Owed(s, id)
         == s.enqueued[id] + z.delivered[id] + Owed(z, id) + WithdrawnIn(s, steps, id) + AbsorbedIn(s, steps, id)
    decreases |steps|
  {
    hide QueueOk, Enabled, Next, Withdrawn, Absorbed, Owed;
    if steps != [] {
      LedgerStep(s, steps[0], id);
      QueueStep(s, steps[0]);
      LedgerRun(Next(s, steps[0]), steps[1..], z, id);
    }
  }

  /**
   Conservation: in every run from a new manager, each event enqueued was delivered, is
   still owed, was taken back by a cancel, by closing or by a dispatcher that stopped, or
   was taken for a cancelled one of the same identifier.
   */
  lemma EventsConserved(steps: seq<Step>, z: State, id: nat)
    requires Trace(INITIAL, steps, z) && id > 0
    ensures z.enqueued[id] == z.delivered[id] + Owed(z, id) + WithdrawnIn(INITIAL, steps, id) + AbsorbedIn(INITIAL, steps, id)
  {
    assert QueueOk(INITIAL);
    LedgerRun(INITIAL, steps, z, id);
  }

  /** An event in hand either still has its entry at the head or was withdrawn from the queue for good. */
  ghost predicate Tracked(s: State, id: nat) {
    Stale(s, id) ==> Gone(s, id)
  }

  /** The identifier is not handed out again while an event of its former holder is in hand. */
  ghost predicate NeverReused(s: State, steps: seq<Step>, id: nat)
    decreases |steps|
  {
    steps == [] || !Enabled(s, steps[0])
    || ((steps[0] == DoStart(id) ==> s.disp != Sending(id) && s.disp != Sent(id)) && NeverReused(Next(s, steps[0]), steps[1..], id))
  }

  lemma TrackedStep(s: State, st: Step, id: nat)
    requires QueueOk(s) && Enabled(s, st) && Tracked(s, id) && id > 0
    requires st == DoStart(id) ==> s.disp != Sending(id) && s.disp != Sent(id)
    ensures Tracked(Next(s, st), id) && Absorbed(s, st, id) == 0
  {
    if Stale(s, id) {
      GoneStep(s, st, id);
      hide Next, Enabled, QueueOk;
    } else {
      match st {
        case DoCancel(k) =>
          WithoutFacts(s.pending, k);
          hide Without, NoDup;
        case DoEnqueue(k, recurring) =>
          assert s.pending != [] ==> (s.pending + [k])[0] == s.pending[0];
        case _ => hide FirstFree;
      }
    }
  }

  /** So an event is lost to a cancelled one only where an identifier comes round again, after 2^31 starts, that soon. */
  lemma {:induction false} AbsorbedOnlyOnReuse(s: State, steps: seq<Step>, id: nat)
    requires QueueOk(s) && Tracked(s, id) && id > 0 && NeverReused(s, steps, id)
    ensures AbsorbedIn(s, steps, id) == 0
    decreases |steps|
  {
    hide QueueOk, Enabled, Next, Absorbed, Tracked;
    if steps != [] && Enabled(s, steps[0]) {
      TrackedStep(s, steps[0], id);
      QueueStep(s, steps[0]);
      AbsorbedOnlyOnReuse(Next(s, steps[0]), steps[1..], id);
    }
  }

  // ----- wake-ups

  /** Firings of active timers, and wake-ups of the dispatcher, in a run. */
  ghost function Firings(s: State, steps: seq<Step>): (n: nat)
    decreases |steps|
  {
    if steps == [] || !Enabled(s, steps[0]) then 0
    else (if steps[0].DoEnqueue? && steps[0].id in s.active then 1 else 0) + Firings(Next(s, steps[0]), steps[1..])
  }

  function Wakeups(steps: seq<Step>): (n: nat) {
    if steps == [] then 0 else (if steps[0].DoWake? then 1 else 0) + Wakeups(steps[1..])
  }

  /** The dispatcher never spins: in every run it wakes at most once for each firing. */
  lemma {:induction false} WakesOncePerFiring(s: State, steps: seq<Step>, z: State)
    requires Trace(s, steps, z)
    ensures Wakeups(steps) + z.signallers + (if z.signal then 1 else 0) <= Firings(s, steps) + s.signallers + if s.signal then 1 else 0
    decreases |steps|
  {
    if steps != [] {
      SignalStep(s, steps[0]);
      hide Enabled, Next;
      WakesOncePerFiring(Next(s, steps[0]), steps[1..], z);
    }
  }

  lemma SignalStep(s: State, st: Step)
    requires Enabled(s, st)
    ensures var r := Next(s, st);
      (if st.DoWake? then 1 else 0) + r.signallers + (if r.signal then 1 else 0)
        <= (if st.DoEnqueue? && st.id in s.active then 1 else 0) + s.signallers + if s.signal then 1 else 0
  {
    hide FirstFree;
  }

  // ----- which timers stay active

  /** The steps that end a timer: its cancel, closing, and its own firing when it is a one-shot. */
  predicate Ends(st: Step, id: nat) {
    st == DoCancel(id) || st.DoClose? || st == DoEnqueue(id, false)
  }

  lemma ActiveStep(s: State, st: Step, id: nat)
    requires Enabled(s, st)
    ensures id in Next(s, st).active <==> st == DoStart(id) || (id in s.active && !Ends(st, id))
  {
    hide FirstFree;
  }

  /** Not ended in `steps[from..]`. */
  ghost predicate Unended(steps: seq<Step>, from: nat, id: nat) {
    forall k :: from <= k < |steps| ==> !Ends(steps[k], id)
  }

  ghost predicate StartedLast(steps: seq<Step>, id: nat) {
    exists k :: 0 <= k < |steps| && steps[k] == DoStart(id) && Unended(steps, k + 1, id)
  }

  /**
   A timer is active after a run if and only if it was active before and nothing ended it,
   or it was started during the run and nothing ended it since. So a recurring timer is
   active until it is cancelled, and a one-shot until it fires.
   */
  lemma {:induction false} ActiveIff(s: State, steps: seq<Step>, z: State, id: nat)
    requires Trace(s, steps, z)
    ensures id in z.active <==> (id in s.active && Unended(steps, 0, id)) || StartedLast(steps, id)
    decreases |steps|
  {
    hide Enabled, Next, Ends;
    if steps != [] {
      var rest := steps[1..];
      ActiveStep(s, steps[0], id);
      ActiveIff(Next(s, steps[0]), rest, z, id);
      StartKeepsOpen(steps, id);
    }
  }

  lemma StartKeepsOpen(steps: seq<Step>, id: nat)
    requires steps != []
    ensures Unended(steps, 0, id) <==> !Ends(steps[0], id) && Unended(steps[1..], 0, id)
    ensures StartedLast(steps, id) <==> (steps[0] == DoStart(id) && Unended(steps[1..], 0, id)) || StartedLast(steps[1..], id)
  {
    hide Ends;
    var rest := steps[1..];
    assert forall k :: 0 <= k < |rest| ==> rest[k] == steps[k + 1];
    assert forall k :: 1 <= k < |steps| ==> steps[k] == rest[k - 1];
    assert forall n: nat :: n <= |rest| ==> (Unended(steps, n + 1, id) <==> Unended(rest, n, id)) by {
      forall n: nat | n <= |rest| ensures Unended(steps, n + 1, id) <==> Unended(rest, n, id) {
        if Unended(steps, n + 1, id) {
          forall k | n <= k < |rest| ensures !Ends(rest[k], id) {
            assert rest[k] == steps[k + 1];
          }
        }
      }
    }
    if StartedLast(steps, id) {
      var k :| 0 <= k < |steps| && steps[k] == DoStart(id) && Unended(steps, k + 1, id);
      assert k > 0 ==> rest[k - 1] == DoStart(id) && Unended(rest, k, id);
    }
    if StartedLast(rest, id) {
      var k :| 0 <= k < |rest| && rest[k] == DoStart(id) && Unended(rest, k + 1, id);
      assert steps[k + 1] == DoStart(id) && Unended(steps, k + 2, id);
    }
  }

  /** Whenever a timer that is active fires, its event is waiting afterwards, a tick of a recurring one included. */
  lemma FiringQueues(s: State, id: nat, recurring: bool)
    requires QueueOk(s) && id in s.active
    ensures id in Enqueue(s, id, recurring).pending
  {}

  /** Until it is started again, a timer that only fires as a one-shot is enqueued at most once, and not at all once it has fired. */
  lemma {:induction false} OneShotOnce(s: State, steps: seq<Step>, z: State, id: nat)
    requires Trace(s, steps, z)
    requires forall k :: 0 <= k < |steps| ==> steps[k] != DoStart(id) && steps[k] != DoEnqueue(id, true)
    ensures z.enqueued[id] <= s.enqueued[id] + if id in s.active then 1 else 0
    decreases |steps|
  {
    if steps != [] {
      OneShotStep(s, steps[0], id);
      hide Next, Enabled;
      assert forall k :: 0 <= k < |steps| - 1 ==> steps[1..][k] == steps[k + 1];
      OneShotOnce(Next(s, steps[0]), steps[1..], z, id);
    }
  }

  lemma OneShotStep(s: State, st: Step, id: nat)
    requires Enabled(s, st) && st != DoStart(id) && st != DoEnqueue(id, true)
    ensures var r := Next(s, st);
      r.enqueued[id] + (if id in r.active then 1 else 0) <= s.enqueued[id] + if id in s.active then 1 else 0
  {
    hide FirstFree;
  }

  // ----- how soon an identifier comes round again

  /** How far the search goes from `next` to `id`, wrapping after `MAX_ID`. */
  function Advance(next: nat, id: nat): (n: int) {
    if next < id then id - next else MAX_ID - next + id
  }

  /** Only identifiers in use are passed over. */
  lemma AdvanceBound(next: nat, active: set<nat>, id: nat)
    requires next <= MAX_ID && FirstFree(next, active, id)
    ensures 1 <= Advance(next, id) <= |active| + 1
  {
    if next < id {
      AboveSize(next, id - 1);
      assert Above(next, id - 1) <= active by {
        forall k | k in Above(next, id - 1) ensures k in active { assert Passed(next, k, id); }
      }
      SubsetSize(Above(next, id - 1), active);
    } else {
      AboveSize(next, MAX_ID);
      AboveSize(0, id - 1);
      var tried := Above(next, MAX_ID) + Above(0, id - 1);
      assert tried <= active by {
        forall k | k in tried ensures k in active { assert Passed(next, k, id); }
      }
      SubsetSize(tried, active);
      assert Above(next, MAX_ID) !! Above(0, id - 1);
    }
  }

  function Starts(steps: seq<Step>): (n: nat) {
    if steps == [] then 0 else (if steps[0].DoStart? then 1 else 0) + Starts(steps[1..])
  }

  /** Over a run the last identifier travels round the circle by at least one and at most 64 for each start. */
  lemma {:induction false} Travels(s: State, steps: seq<Step>, z: State) returns (t: int)
    requires QueueOk(s) && Trace(s, steps, z)
    ensures Starts(steps) <= t <= 64 * Starts(steps) && (s.next + t - z.next) % MAX_ID == 0
    decreases |steps|
  {
    if steps == [] {
      t := 0;
    } else {
      var r := Next(s, steps[0]);
      var d := TravelsOne(s, steps[0]);
      QueueStep(s, steps[0]);
      hide QueueOk, Enabled, Next;
      var u := Travels(r, steps[1..], z);
      t := d + u;
      SumsDivide(s.next + d - r.next, r.next + u - z.next);
    }
  }

  lemma SumsDivide(a: int, b: int)
    requires a % MAX_ID == 0 && b % MAX_ID == 0
    ensures (a + b) % MAX_ID == 0
  {}

  lemma TravelsOne(s: State, st: Step) returns (d: int)
    requires QueueOk(s) && Enabled(s, st)
    ensures (if st.DoStart? then 1 else 0) <= d <= (if st.DoStart? then 64 else 0) && (s.next + d - Next(s, st).next) % MAX_ID == 0
  {
    d := 0;
    if st.DoStart? {
      AdvanceBound(s.next, s.active, st.id);
      d := Advance(s.next, st.id);
    }
  }

  /** An identifier just started is not handed out again within 2^25 starts, however timers end meanwhile. */
  lemma ReuseTakesLong(s: State, steps: seq<Step>, z: State, id: nat)
    requires QueueOk(s) && s.next == id && Trace(s, steps, z) && Enabled(z, DoStart(id))
    ensures Starts(steps) + 1 >= 33_554_432
  {
    var t := Travels(s, steps, z);
    TraceQueue(s, steps, z);
    hide Trace;
    var d := TravelsOne(z, DoStart(id));
    SumsDivide(s.next + t - z.next, z.next + d - id);
    assert (t + d) % MAX_ID == 0 && t + d >= 1;
    assert t + d >= MAX_ID;
  }

  lemma {:induction false} TraceQueue(s: State, steps: seq<Step>, z: State)
    requires QueueOk(s) && Trace(s, steps, z)
    ensures QueueOk(z)
    decreases |steps|
  {
    if steps != [] {
      QueueStep(s, steps[0]);
      TraceQueue(Next(s, steps[0]), steps[1..], z);
    }
  }

  // ----- the dispatcher gets there by itself

  predicate ByDispatcher(st: Step) {
    st.DoSignal? || st.DoLook? || st.DoWake? || st.DoDeliver? || st.DoPop?
  }

  /** What is left of the dispatcher's way: four stages for each pending event, and for one in hand that was cancelled. */
  function Way(s: State): (n: nat) {
    4 * |s.pending| + (if (s.disp.Sending? || s.disp.Sent?) && !AtFront(s, s.disp.id) then 4 else 0)
    + match s.disp
      case Waiting => 4 + (if s.signal then 0 else 1)
      case AtTop => 3
      case Sending(_) => 2
      case Sent(_) => 1
      case Stopped => 0
  }

  /** The dispatcher's next move. */
  function Move(s: State): (st: Step) {
    match s.disp
    case Waiting => if s.signal then DoWake else DoSignal
    case AtTop => DoLook
    case Sending(_) => DoDeliver
    case Sent(_) => DoPop
    case Stopped => DoLook
  }

  lemma MoveIsPossible(s: State, id: nat)
    requires Inv(s) && !s.disp.Stopped? && Owed(s, id) >= 1
    ensures Enabled(s, Move(s)) && ByDispatcher(Move(s)) && Way(Next(s, Move(s))) < Way(s)
    ensures !Next(s, Move(s)).disp.Stopped?
    ensures Next(s, Move(s)).delivered[id] > s.delivered[id] || Owed(Next(s, Move(s)), id) >= 1
  {
    hide NotOverDelivered;
    assert s.disp.AtTop? || s.disp.Waiting? ==> id in s.pending;
    if s.disp.Sent? && AtFront(s, s.disp.id) {
      NoDupTail(s.pending);
      assert id in s.pending[1..] <==> id in s.pending && id != s.pending[0];
    }
    assert s.pending != [] ==> s.pending[0] in s.pending;
  }

  /** Every event still owed is delivered by the dispatcher's own steps, whatever else stands still. */
  lemma {:induction false} OwedIsDelivered(s: State, id: nat) returns (steps: seq<Step>, z: State)
    requires Inv(s) && !s.disp.Stopped? && Owed(s, id) >= 1
    ensures Trace(s, steps, z) && (forall k :: 0 <= k < |steps| ==> ByDispatcher(steps[k])) && z.delivered[id] > s.delivered[id]
    decreases Way(s)
  {
    var st := Move(s);
    MoveIsPossible(s, id);
    var r := Next(s, st);
    QueueStep(s, st);
    WakeupStep(s, st);
    DeliveryStep(s, st);
    NeverTakenBack(s, st, id);
    hide Enabled, Next, QueueOk, NoLostWakeup, NotOverDelivered, Owed, Way, Move, ByDispatcher;
    if r.delivered[id] > s.delivered[id] {
      steps, z := [st], r;
      assert [st][1..] == [];
    } else {
      var rest, y := OwedIsDelivered(r, id);
      steps, z := [st] + rest, y;
      assert ([st] + rest)[1..] == rest;
    }
  }

  lemma NeverTakenBack(s: State, st: Step, id: nat)
    requires Enabled(s, st)
    ensures Next(s, st).delivered[id] >= s.delivered[id]
  {
    hide FirstFree;
  }

  // ----- the manager object

  /** The removal loop of `Cancel`. */
  method DropFirst(pending: seq<nat>, id: nat) returns (r: seq<nat>)
    ensures r == Without(pending, id)
  {
    assert pending[..0] + Without(pending[0..], id) == Without(pending, id);
    for i := 0 to |pending|
      invariant Without(pending, id) == pending[..i] + Without(pending[i..], id)
    {
      assert pending[i..][1..] == pending[i + 1..];
      if pending[i] == id {
        return pending[..i] + pending[i + 1..];
      }
      assert pending[..i] + ([pending[i]] + Without(pending[i + 1..], id)) ==
             pending[..i + 1] + Without(pending[i + 1..], id);
    }
    assert pending[..|pending|] + [] == pending;
    return pending;
  }

  class TimerManager {
    var next: nat
    var active: set<nat>
    var pending: seq<nat>
    var queued: set<nat>
    var signal: bool
    var signallers: nat
    var disp: Dispatcher
    ghost var enqueued: multiset<nat>
    ghost var delivered: multiset<nat>

    ghost function View(): (s: State)
      reads this
    {
      State(next, active, pending, queued, signal, signallers, disp, enqueued, delivered)
    }

    constructor ()
      ensures View() == INITIAL
    {
      next, active, pending, queued := 0, {}, [], {};
      signal, signallers, disp := false, 0, AtTop;
      enqueued, delivered := multiset{}, multiset{};
    }

    /** A non-negative result is the new timer's identifier; otherwise the error code, and nothing changes. */
    method Start(delay: int, recurring: bool) returns (code: int)
      requires QueueOk(View())
      modifies this
      ensures code == -1 <==> delay < (if recurring then 10_000_000 else 1_000_000) || delay > 24 * 60 * 60 * 1_000_000_000
      ensures code == -2 <==> DelayOk(delay, recurring) && |old(active)| >= 64
      ensures code < 0 ==> View() == old(View())
      ensures code >= 0 ==> FirstFree(old(next), old(active), code) && View() == Started(old(View()), code)
      ensures code > 0 || code == -1 || code == -2
      ensures QueueOk(View())
    {
      var minimum := if recurring then MIN_EVERY else MIN_DELAY;
      if delay < minimum || delay > MAX_DELAY {
        return ERR_INVALID;
      }
      if |active| >= MAX_ACTIVE {
        return ERR_LIMIT;
      }
      var id, _ := FindId(next, active);
      next := id;
      active := active + {id};
      code := id;
    }

    /** The part of `enqueue` under the lock; `Signalled` is the send that follows it. */
    method Fired(id: nat, recurring: bool)
      modifies this
      ensures View() == Enqueue(old(View()), id, recurring)
    {
      if id !in active {
        return;
      }
      ghost var s := View();
      if !recurring {
        active := active - {id};
      }
      ghost var u := if recurring then s else s.(active := s.active - {id});
      assert View() == u;
      if id !in queued {
        Append(id);
        assert View() == u.(queued := u.queued + {id}, pending := u.pending + [id], enqueued := u.enqueued + multiset{id});
      }
      signallers := signallers + 1;
    }

    method Append(id: nat)
      modifies this`queued, this`pending, this`enqueued
      ensures queued == old(queued) + {id} && pending == old(pending) + [id]
      ensures enqueued == old(enqueued) + multiset{id}
    {
      queued := queued + {id};
      pending := pending + [id];
      enqueued := enqueued + multiset{id};
    }

    method Signalled()
      requires signallers > 0
      modifies this
      ensures View() == Signal(old(View()))
    {
      signallers := signallers - 1;
      if !signal {
        signal := true;
      }
    }

    /** The dispatcher's look at the head of the queue. */
    method LookAhead()
      requires disp.AtTop?
      modifies this
      ensures View() == Look(old(View()))
    {
      var id := 0;
      if |pending| > 0 {
        id := pending[0];
      }
      disp := if id == 0 then Waiting else Sending(id);
    }

    /** The dispatcher's lock region after an event was handed over. */
    method PopDelivered()
      requires disp.Sent?
      modifies this
      ensures View() == Pop(old(View()))
    {
      if |pending| > 0 && pending[0] == disp.id {
        pending := pending[1..];
        queued := queued - {disp.id};
      }
      disp := AtTop;
    }

    method Cancel(id: nat) returns (wasActive: bool)
      modifies this
      ensures wasActive == (id in old(active))
      ensures View() == Cancelled(old(View()), id)
    {
      wasActive := id in active;
      active := active - {id};
      queued := queued - {id};
      pending := DropFirst(pending, id);
    }

    method Close()
      modifies this
      ensures View() == Closed(old(View()))
    {
      active := {};
      pending := [];
      queued := {};
    }
  }
}
