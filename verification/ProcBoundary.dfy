/**
 The process boundary: a worker that owns the guest forwards every host call to its
 parent over a lock-step protocol. Three claims: the two sides never deadlock, every
 request the guest-side caps let through fits the parent's bounds, and a call through
 the boundary has the effect and the guest-visible result of a direct call.
 */
module ProcBoundary {
  import opened Results
  import opened Bytes
  import opened Codecs
  import opened Framing
  import KvStore

  const OP_START: byte := 1
  const OP_RESP: byte := 2
  const OP_RECV: byte := 3
  const OP_PRESENT: byte := 4
  const OP_KV_GET: byte := 5
  const OP_KV_SET: byte := 6
  const OP_KV_DEL: byte := 7
  const OP_BUS_SUB: byte := 8
  const OP_BUS_PUB: byte := 9
  const OP_AUTH: byte := 10
  const OP_ENV: byte := 11
  const OP_FETCH: byte := 12
  const OP_DONE: byte := 13
  const OP_OUTPUT: byte := 14
  const OP_KV_LIST: byte := 15
  const OP_KV_CAS: byte := 16
  const OP_EXEC: byte := 17
  const OP_TIMER_START: byte := 18
  const OP_TIMER_CANCEL: byte := 19
  const OP_OUTPUT_STDERR: byte := 20
  const OP_INPUT: byte := 21

  const KV_MAX_VALUE: nat := 65536
  const BUS_MAX_TOPIC: nat := 128
  const BUS_MAX_DATA: nat := 3072
  const ENV_MAX_KEY: nat := 256
  const FETCH_MAX_METHOD: nat := 32
  const FETCH_MAX_URL: nat := 2048
  const FETCH_MAX_BODY: nat := 1_048_576
  const EXEC_MAX_NAME: nat := 4096
  const EXEC_MAX_ARGS: nat := 256
  const EXEC_MAX_ARG: nat := 65536
  const GOODBYE_MAX: nat := 4096
  const MAX_WORKER_OUTPUT: nat := 65536
  const MAX_WORKER_INPUT: nat := 65536
  const MAX_WORKER_ERROR: nat := 65536
  const MAX_SESSION_LOG: nat := 65536
  const MAX_FRAME_BYTES: nat := 8 + 500 * 300 * 11
  const MAX_ENCODED_FRAME: nat := 8 + 150_000 * 11
  const MAX_ENCODED_FETCH: nat := 2 + FETCH_MAX_METHOD + 2 + FETCH_MAX_URL + 4 + FETCH_MAX_BODY
  const MAX_ENCODED_EXEC: nat := 4 + EXEC_MAX_NAME + 4 + EXEC_MAX_ARGS * (4 + EXEC_MAX_ARG)

  /** The parent's bound on each incoming operation. */
  function MaxWorkerPayload(op: byte): (n: nat) {
    if op == OP_INPUT then 4
    else if op == OP_PRESENT then MAX_ENCODED_FRAME
    else if op == OP_KV_GET || op == OP_KV_DEL then KV_MAX_KEY
    else if op == OP_KV_SET then 2 + KV_MAX_KEY + KV_MAX_VALUE
    else if op == OP_KV_LIST then 2 + KV_MAX_KEY
    else if op == OP_KV_CAS then 2 + KV_MAX_KEY + HASH_SIZE + KV_MAX_VALUE
    else if op == OP_BUS_SUB then BUS_MAX_TOPIC
    else if op == OP_BUS_PUB then 2 + BUS_MAX_TOPIC + BUS_MAX_DATA
    else if op == OP_ENV then ENV_MAX_KEY
    else if op == OP_FETCH then MAX_ENCODED_FETCH
    else if op == OP_EXEC then MAX_ENCODED_EXEC
    else if op == OP_TIMER_START then 9
    else if op == OP_TIMER_CANCEL then 4
    else if op == OP_DONE then 8 + MAX_WORKER_ERROR + GOODBYE_MAX + MAX_SESSION_LOG
    else if op == OP_OUTPUT || op == OP_OUTPUT_STDERR then MAX_WORKER_OUTPUT
    else 0
  }

  // ----- requests and their sizes

  datatype Request =
    | Recv
    | Present(raw: bytes)
    | KvGet(key: bytes)
    | KvSet(key: bytes, value: bytes)
    | KvDel(key: bytes)
    | KvList(prefix: bytes, limit: nat)
    | KvCas(key: bytes, expected: bytes, value: bytes)
    | BusSub(topic: bytes)
    | BusPub(topic: bytes, data: bytes)
    | Whoami
    | EnvGet(key: bytes)
    | Fetch(verb: bytes, url: bytes, body: bytes)
    | Exec(name: bytes, args: seq<bytes>)
    | TimerStart(delay: int, recurring: bool)
    | TimerCancel(id: nat)
    | Output(data: bytes, stderr: bool)
    | Input(count: nat)

  predicate KeyOk(k: bytes) {
    1 <= |k| <= KV_MAX_KEY
  }

  /** The caps the guest-facing host functions and the proxies enforce before anything is sent. */
  predicate GuestAllows(r: Request) {
    match r
    case Recv => true
    case Present(raw) => |raw| <= MAX_FRAME_BYTES
    case KvGet(k) => KeyOk(k)
    case KvSet(k, v) => KeyOk(k) && |v| <= KV_MAX_VALUE
    case KvDel(k) => KeyOk(k)
    case KvList(p, limit) => |p| <= KV_MAX_KEY && 1 <= limit <= KV_MAX_LIST
    case KvCas(k, e, v) => KeyOk(k) && |e| == HASH_SIZE && |v| <= KV_MAX_VALUE
    case BusSub(t) => 1 <= |t| <= BUS_MAX_TOPIC
    case BusPub(t, d) => 1 <= |t| <= BUS_MAX_TOPIC && |d| <= BUS_MAX_DATA
    case Whoami => true
    case EnvGet(k) => 1 <= |k| <= ENV_MAX_KEY
    case Fetch(m, u, b) => |m| <= FETCH_MAX_METHOD && |u| <= FETCH_MAX_URL && |b| <= FETCH_MAX_BODY
    case Exec(n, args) =>
      |n| <= EXEC_MAX_NAME && |args| <= EXEC_MAX_ARGS && forall i :: 0 <= i < |args| ==> |args[i]| <= EXEC_MAX_ARG
    case TimerStart(d, _) => IsInt64(d)
    case TimerCancel(id) => id < U32
    case Output(d, _) => |d| <= MAX_WORKER_OUTPUT
    case Input(n) => 1 <= n <= MAX_WORKER_INPUT
  }

  function OpOf(r: Request): (op: byte) {
    match r
    case Recv => OP_RECV
    case Present(_) => OP_PRESENT
    case KvGet(_) => OP_KV_GET
    case KvSet(_, _) => OP_KV_SET
    case KvDel(_) => OP_KV_DEL
    case KvList(_, _) => OP_KV_LIST
    case KvCas(_, _, _) => OP_KV_CAS
    case BusSub(_) => OP_BUS_SUB
    case BusPub(_, _) => OP_BUS_PUB
    case Whoami => OP_AUTH
    case EnvGet(_) => OP_ENV
    case Fetch(_, _, _) => OP_FETCH
    case Exec(_, _) => OP_EXEC
    case TimerStart(_, _) => OP_TIMER_START
    case TimerCancel(_) => OP_TIMER_CANCEL
    case Output(_, stderr) => if stderr then OP_OUTPUT_STDERR else OP_OUTPUT
    case Input(_) => OP_INPUT
  }

  function EncodeFetch(verb: bytes, url: bytes, body: bytes): (bs: bytes) {
    EncodeKeyValue(verb, EncodeKeyValue(url, Prefixed32(body, [])))
  }

  function EncodeExec(name: bytes, args: seq<bytes>): (bs: bytes) {
    Prefixed32(name, LE32(|args|) + EncodeArgs(args, []))
  }

  function Payload(r: Request): (bs: bytes)
    requires GuestAllows(r)
  {
    match r
    case Recv => []
    case Present(raw) => raw
    case KvGet(k) => k
    case KvSet(k, v) => EncodeKeyValue(k, v)
    case KvDel(k) => k
    case KvList(p, limit) => EncodeListRequest(p, limit)
    case KvCas(k, e, v) => EncodeCas(k, e, v)
    case BusSub(t) => t
    case BusPub(t, d) => EncodeKeyValue(t, d)
    case Whoami => []
    case EnvGet(k) => k
    case Fetch(m, u, b) => EncodeFetch(m, u, b)
    case Exec(n, args) => EncodeExec(n, args)
    case TimerStart(d, recurring) => LE64(ToU64(d)) + [if recurring then 1 else 0]
    case TimerCancel(id) => LE32(id)
    case Output(d, _) => d
    case Input(n) => LE32(n)
  }

  /** No two kinds of request share an operation, nor do the two output streams. */
  lemma OpsTellApart(r: Request, q: Request)
    requires OpOf(r) == OpOf(q)
    ensures r.Output? <==> q.Output?
    ensures r.Output? ==> r.stderr == q.stderr
    ensures r.KvGet? == q.KvGet? && r.KvSet? == q.KvSet? && r.KvDel? == q.KvDel? && r.KvList? == q.KvList? && r.KvCas? == q.KvCas?
    ensures r.BusSub? == q.BusSub? && r.BusPub? == q.BusPub? && r.EnvGet? == q.EnvGet? && r.Whoami? == q.Whoami?
    ensures r.TimerStart? == q.TimerStart? && r.TimerCancel? == q.TimerCancel? && r.Input? == q.Input? && r.Recv? == q.Recv?
    ensures r.Present? == q.Present? && r.Fetch? == q.Fetch? && r.Exec? == q.Exec?
  {}

  lemma {:induction false} ArgsSize(args: seq<bytes>)
    requires forall i :: 0 <= i < |args| ==> |args[i]| <= EXEC_MAX_ARG
    ensures |EncodeArgs(args, [])| <= |args| * (4 + EXEC_MAX_ARG)
    decreases |args|
  {
    if args != [] {
      ArgsSize(args[1..]);
      assert |EncodeArgs(args, [])| == 4 + |args[0]| + |EncodeArgs(args[1..], [])|;
      assert |args| * (4 + EXEC_MAX_ARG) == (4 + EXEC_MAX_ARG) + |args[1..]| * (4 + EXEC_MAX_ARG);
    }
  }

  /** Every request the guest side may send passes the parent's read bound, so it is never a protocol error. */
  lemma RequestFits(r: Request)
    requires GuestAllows(r)
    ensures Fits(Message(OpOf(r), Payload(r)), MaxWorkerPayload)
  {
    if r.Exec? {
      ArgsSize(r.args);
      assert |r.args| * (4 + EXEC_MAX_ARG) <= EXEC_MAX_ARGS * (4 + EXEC_MAX_ARG);
    }
  }

  // ----- the lock-step protocol

  datatype Worker = Booting | Holding | Awaiting | Exited

  datatype Parent = Starting | Listening | Serving(request: Message) | Ended

  /** Both sides, the two directions of the pipe, and how many requests and replies were sent. */
  datatype Link = Link(worker: Worker, parent: Parent, down: seq<Message>, up: seq<Message>, requests: nat, replies: nat)

  const NEW_LINK := Link(Booting, Starting, [], [], 0, 0)

  datatype Step =
    | SendStart(payload: bytes)
    | Boot
    | Ask(r: Request)
    | Finish(payload: bytes)
    | Take
    | Reply(payload: bytes)
    | Refuse
    | Collect

  predicate Enabled(l: Link, st: Step) {
    match st
    case SendStart(_) => l.parent.Starting?
    case Boot => l.worker.Booting? && l.down != []
    case Ask(r) => l.worker.Holding? && GuestAllows(r)
    case Finish(_) => l.worker.Holding?
    case Take => l.parent.Listening? && l.up != []
    case Reply(_) => l.parent.Serving?
    case Refuse => l.parent.Serving?
    case Collect => l.worker.Awaiting? && l.down != []
  }

  function Next(l: Link, st: Step): (r: Link)
    requires Enabled(l, st)
  {
    match st
    case SendStart(p) => l.(parent := Listening, down := l.down + [Message(OP_START, p)])
    case Boot => l.(worker := if l.down[0].op == OP_START then Holding else Exited, down := l.down[1..])
    case Ask(r) => l.(worker := Awaiting, up := l.up + [Message(OpOf(r), Payload(r))], requests := l.requests + 1)
    case Finish(p) => l.(worker := Exited, up := l.up + [Message(OP_DONE, p)])
    case Take =>
      var m := l.up[0];
      l.(up := l.up[1..],
         parent := if m.op == OP_DONE || !Fits(m, MaxWorkerPayload) then Ended else Serving(m))
    case Reply(p) => l.(parent := Listening, down := l.down + [Message(OP_RESP, p)], replies := l.replies + 1)
    case Refuse => l.(parent := Ended)
    case Collect => l.(worker := if l.down[0].op == OP_RESP then Holding else Exited, down := l.down[1..])
  }

  /** Who may act: the worker, the parent, or whoever a message in flight is for. */
  function Turns(l: Link): (n: nat) {
    (if l.worker.Holding? then 1 else 0)
    + (if l.parent.Starting? || l.parent.Serving? then 1 else 0)
    + |l.down| + |l.up|
  }

  ghost predicate Inv(l: Link) {
    !l.parent.Ended? ==>
      && Turns(l) == 1
      && (l.worker.Booting? <==> l.parent.Starting? || (|l.down| == 1 && l.down[0].op == OP_START))
      && (l.down != [] ==> l.parent.Listening? && (l.down[0].op == OP_START || (l.down[0].op == OP_RESP && l.worker.Awaiting?)))
      && (l.up != [] ==> l.parent.Listening? && (l.up[0].op == OP_DONE <==> l.worker.Exited?)
                         && (l.up[0].op != OP_DONE ==> Fits(l.up[0], MaxWorkerPayload)))
      && (l.parent.Serving? ==> l.worker.Awaiting?)
      && (l.worker.Exited? ==> l.up != [])
      && l.requests == l.replies + (if l.parent.Serving? || (l.up != [] && l.worker.Awaiting?) then 1 else 0)
  }

  lemma InvStep(l: Link, st: Step)
    requires Inv(l) && Enabled(l, st)
    ensures Inv(Next(l, st))
  {
    if st.Ask? {
      RequestFits(st.r);
      assert OpOf(st.r) != OP_DONE;
    }
  }

  ghost predicate Trace(l: Link, steps: seq<Step>, z: Link)
    decreases |steps|
  {
    if steps == [] then l == z else Enabled(l, steps[0]) && Trace(Next(l, steps[0]), steps[1..], z)
  }

  lemma {:induction false} TraceInv(l: Link, steps: seq<Step>, z: Link)
    requires Inv(l) && Trace(l, steps, z)
    ensures Inv(z)
    decreases |steps|
  {
    if steps != [] {
      InvStep(l, steps[0]);
      TraceInv(Next(l, steps[0]), steps[1..], z);
    }
  }

  /**
   Until the parent ends the session, exactly one side holds the turn or exactly one
   message is in flight, some step is possible, and when the worker holds the turn
   again each of its requests has had exactly one reply.
   */
  lemma NeverDeadlocks(steps: seq<Step>, z: Link)
    requires Trace(NEW_LINK, steps, z) && !z.parent.Ended?
    ensures Turns(z) == 1
    ensures exists st :: Enabled(z, st)
    ensures z.worker.Holding? ==> z.requests == z.replies
    ensures z.replies <= z.requests <= z.replies + 1
  {
    TraceInv(NEW_LINK, steps, z);
    if z.parent.Starting? {
      assert Enabled(z, SendStart([]));
    } else if z.worker.Holding? {
      assert Enabled(z, Finish([]));
    } else if z.parent.Serving? {
      assert Enabled(z, Reply([]));
    } else if z.up != [] {
      assert Enabled(z, Take);
    } else if z.worker.Booting? {
      assert Enabled(z, Boot);
    } else {
      assert Enabled(z, Collect);
    }
  }

  /** A request that is sent is read and served as sent; the reply comes back and the worker holds the turn again. */
  lemma CallCompletes(l: Link, r: Request, p: bytes)
    requires Inv(l) && !l.parent.Ended? && Enabled(l, Ask(r))
    ensures var asked := Next(l, Ask(r));
      && Enabled(asked, Take)
      && var taken := Next(asked, Take);
         && taken.parent == Serving(Message(OpOf(r), Payload(r)))
         && var replied := Next(taken, Reply(p));
            && replied.down == [Message(OP_RESP, p)] && Enabled(replied, Collect)
            && Next(replied, Collect) == l.(requests := l.requests + 1, replies := l.replies + 1)
  {
    RequestFits(r);
    assert OpOf(r) != OP_DONE;
    hide Payload, MaxWorkerPayload, GuestAllows;
    var asked := Next(l, Ask(r));
    assert asked.up == [Message(OpOf(r), Payload(r))];
    var taken := Next(asked, Take);
    assert taken.up == [];
    var replied := Next(taken, Reply(p));
    assert replied.down == [Message(OP_RESP, p)];
  }

  ghost predicate GoesOn(l: Link) {
    Inv(l) && !l.parent.Ended? && !l.worker.Exited?
  }

  lemma GoesOnStep(l: Link, st: Step)
    requires GoesOn(l) && Enabled(l, st) && !st.Finish? && !st.Refuse?
    ensures GoesOn(Next(l, st))
  {
    InvStep(l, st);
    hide MaxWorkerPayload, Payload, GuestAllows;
  }

  /** A session ends only because the worker finished or the parent refused: never because of a request's size or a stray message. */
  lemma {:induction false} EndsOnPurpose(l: Link, steps: seq<Step>, z: Link)
    requires GoesOn(l) && Trace(l, steps, z) && forall k :: 0 <= k < |steps| ==> !steps[k].Finish? && !steps[k].Refuse?
    ensures GoesOn(z)
    decreases |steps|
  {
    if steps != [] {
      assert !steps[0].Finish? && !steps[0].Refuse?;
      GoesOnStep(l, steps[0]);
      assert forall k :: 0 <= k < |steps| - 1 ==> steps[1..][k] == steps[k + 1];
      EndsOnPurpose(Next(l, steps[0]), steps[1..], z);
    }
  }

  // ----- key/value calls

  const KV_OK := 0
  const KV_ERR_NOT_FOUND := -1
  const KV_ERR_TOO_LARGE := -2
  const KV_ERR_QUOTA := -3
  const KV_ERR_INTERNAL := -4
  const KV_ERR_CONFLICT := -5

  datatype StoreCall =
    | SGet(key: bytes)
    | SSet(key: bytes, value: bytes)
    | SDel(key: bytes)
    | SList(prefix: bytes, limit: nat)
    | SCas(key: bytes, expected: bytes, value: bytes)

  /** What a store answers; `Wrote` carries the verdict of a write. */
  datatype StoreAnswer = Value(v: bytes) | NoValue | Wrote(verdict: KvStore.Verdict) | Keys(keys: seq<bytes>) | StoreError

  /** A store in some state: its answer to each call. Which call is made decides how the state changes. */
  type Store = StoreCall -> StoreAnswer

  datatype GuestCall =
    | GuestGet(key: bytes, cap: nat)
    | GuestSet(key: bytes, value: bytes)
    | GuestDel(key: bytes)
    | GuestList(prefix: bytes, limit: nat, cap: nat)
    | GuestCas(key: bytes, expected: bytes, value: bytes)

  /** The calls made on the store, the code returned to the guest and the bytes written to its buffer. */
  datatype Effect = Effect(calls: seq<StoreCall>, code: int, written: bytes)

  /** Size caps checked by the host functions before any store is reached. */
  function Rejected(c: GuestCall): (code: Option<int>) {
    match c
    case GuestGet(k, _) => if KeyOk(k) then None else Some(KV_ERR_TOO_LARGE)
    case GuestSet(k, v) => if KeyOk(k) && |v| <= KV_MAX_VALUE then None else Some(KV_ERR_TOO_LARGE)
    case GuestDel(k) => if KeyOk(k) then None else Some(KV_ERR_TOO_LARGE)
    case GuestList(p, limit, _) =>
      if |p| <= KV_MAX_KEY && 1 <= limit <= KV_MAX_LIST then None else Some(KV_ERR_TOO_LARGE)
    case GuestCas(k, e, v) => if KeyOk(k) && |v| <= KV_MAX_VALUE then None else Some(KV_ERR_TOO_LARGE)
  }

  function StoreCallOf(c: GuestCall): (s: StoreCall) {
    match c
    case GuestGet(k, _) => SGet(k)
    case GuestSet(k, v) => SSet(k, v)
    case GuestDel(k) => SDel(k)
    case GuestList(p, limit, _) => SList(p, limit)
    case GuestCas(k, e, v) => SCas(k, e, v)
  }

  /** A result of unknown length offered to a buffer of `cap` bytes: too long reports the length and writes nothing. */
  function Offer(raw: bytes, cap: nat): (r: (int, bytes)) {
    if |raw| > cap then (|raw|, []) else (|raw|, raw)
  }

  /** The host function's view of a store answer: code and bytes for the guest. */
  function GuestView(c: GuestCall, a: StoreAnswer): (r: (int, bytes)) {
    match c
    case GuestGet(_, cap) =>
      (match a case Value(v) => Offer(v, cap) case NoValue => (KV_ERR_NOT_FOUND, []) case _ => (KV_ERR_INTERNAL, []))
    case GuestSet(_, _) =>
      (match a case Wrote(Done) => (KV_OK, []) case Wrote(Quota) => (KV_ERR_QUOTA, []) case _ => (KV_ERR_INTERNAL, []))
    case GuestDel(_) =>
      (match a case Wrote(Done) => (KV_OK, []) case _ => (KV_ERR_INTERNAL, []))
    case GuestList(_, limit, cap) =>
      (match a
       case Keys(keys) => if |keys| > limit || |keys| > KV_MAX_LIST then (KV_ERR_INTERNAL, []) else Offer(EncodeKeyList(keys), cap)
       case _ => (KV_ERR_INTERNAL, []))
    case GuestCas(_, _, _) =>
      (match a
       case Wrote(Done) => (KV_OK, [])
       case Wrote(Conflict) => (KV_ERR_CONFLICT, [])
       case Wrote(Quota) => (KV_ERR_QUOTA, [])
       case _ => (KV_ERR_INTERNAL, []))
  }

  /** The call made in process; without a store every call fails cleanly. */
  function Direct(c: GuestCall, store: Option<Store>): (e: Effect) {
    if store.None? then Effect([], KV_ERR_INTERNAL, [])
    else if Rejected(c).Some? then Effect([], Rejected(c).value, [])
    else
      var call := StoreCallOf(c);
      var view := GuestView(c, store.value(call));
      Effect([call], view.0, view.1)
  }

  function RequestOf(s: StoreCall): (r: Request) {
    match s
    case SGet(k) => KvGet(k)
    case SSet(k, v) => KvSet(k, v)
    case SDel(k) => KvDel(k)
    case SList(p, limit) => KvList(p, limit)
    case SCas(k, e, v) => KvCas(k, e, v)
  }

  /** The parent's side: the store call a payload asks for, if it is well formed and within caps. */
  function Decoded(op: byte, payload: bytes): (c: Option<StoreCall>) {
    if op == OP_KV_GET then (if KeyOk(payload) then Some(SGet(payload)) else None)
    else if op == OP_KV_DEL then (if KeyOk(payload) then Some(SDel(payload)) else None)
    else if op == OP_KV_SET then
      match DecodeKeyValue(payload)
      case Some((k, v)) => (if KeyOk(k) && |v| <= KV_MAX_VALUE then Some(SSet(k, v)) else None)
      case None => None
    else if op == OP_KV_LIST then
      match DecodeListRequest(payload)
      case Some((p, limit)) =>
        (if |p| <= KV_MAX_KEY && 1 <= limit <= KV_MAX_LIST then Some(SList(p, limit)) else None)
      case None => None
    else if op == OP_KV_CAS then
      match DecodeCas(payload)
      case Some((k, e, v)) => (if |k| <= KV_MAX_KEY && |v| <= KV_MAX_VALUE then Some(SCas(k, e, v)) else None)
      case None => None
    else None
  }

  /** Whatever a worker sends, the store is only asked for keys, values, prefixes and limits in range. */
  lemma DecodedInRange(op: byte, payload: bytes)
    requires Decoded(op, payload).Some?
    ensures match Decoded(op, payload).value
      case SGet(k) => op == OP_KV_GET && 1 <= |k| <= 256
      case SDel(k) => op == OP_KV_DEL && 1 <= |k| <= 256
      case SSet(k, v) => op == OP_KV_SET && 1 <= |k| <= 256 && |v| <= 65536
      case SList(p, limit) => op == OP_KV_LIST && |p| <= 256 && 1 <= limit <= 256
      case SCas(k, e, v) => op == OP_KV_CAS && 1 <= |k| <= 256 && |e| == 32 && |v| <= 65536
  {}

  /** The reply payload for a store answer: a status byte and, on success, the data. */
  function ReplyTo(s: StoreCall, a: StoreAnswer): (bs: bytes) {
    match s
    case SGet(_) => (match a case Value(v) => [0] + v case NoValue => [1] case _ => [2])
    case SSet(_, _) => (match a case Wrote(Done) => [0] case Wrote(Quota) => [1] case _ => [2])
    case SDel(_) => (match a case Wrote(Done) => [0] case _ => [2])
    case SList(_, limit) =>
      (match a
       case Keys(keys) => if |keys| > limit || |keys| > KV_MAX_LIST then [1] else [0] + EncodeKeyList(keys)
       case _ => [1])
    case SCas(_, _, _) =>
      (match a case Wrote(Done) => [0] case Wrote(Conflict) => [1] case Wrote(Quota) => [2] case _ => [3])
  }

  /** The worker's proxy: the reply turned back into a store answer. */
  function ProxyAnswer(s: StoreCall, rp: bytes): (a: StoreAnswer) {
    if rp == [] then StoreError
    else match s
      case SGet(_) => if rp[0] == 0 then Value(rp[1..]) else if rp[0] == 1 then NoValue else StoreError
      case SSet(_, _) => if rp[0] == 0 then Wrote(KvStore.Done) else if rp[0] == 1 then Wrote(KvStore.Quota) else StoreError
      case SDel(_) => if rp[0] == 0 then Wrote(KvStore.Done) else StoreError
      case SList(_, _) =>
        if rp[0] != 0 then StoreError
        else (match DecodeKeyList(rp[1..]) case Some(keys) => Keys(keys) case None => StoreError)
      case SCas(_, _, _) =>
        if rp[0] == 0 then Wrote(KvStore.Done)
        else if rp[0] == 1 then Wrote(KvStore.Conflict)
        else if rp[0] == 2 then Wrote(KvStore.Quota)
        else StoreError
  }

  /**
   The call made through the boundary; the parent announces at start whether it has a store.
   A reply too long for a frame is not written: the session ends and the call in progress fails.
   */
  function Remote(c: GuestCall, store: Option<Store>): (e: Effect)
    requires CasHashOk(c)
  {
    if store.None? then Effect([], KV_ERR_INTERNAL, [])
    else if Rejected(c).Some? then Effect([], Rejected(c).value, [])
    else
      var call := StoreCallOf(c);
      var r := RequestOf(call);
      match Decoded(OpOf(r), Payload(r))
      case None =>
        var view := GuestView(c, StoreError);
        Effect([], view.0, view.1)
      case Some(served) =>
        var reply := ReplyTo(served, store.value(served));
        var view := GuestView(c, if |reply| <= MAX_FRAME then ProxyAnswer(call, reply) else StoreError);
        Effect([served], view.0, view.1)
  }

  predicate CasHashOk(c: GuestCall) {
    c.GuestCas? ==> |c.expected| == HASH_SIZE
  }

  /** What the parent decodes is the call the worker meant. */
  lemma CallSurvives(c: GuestCall)
    requires CasHashOk(c) && Rejected(c).None?
    ensures var r := RequestOf(StoreCallOf(c));
            GuestAllows(r) && Decoded(OpOf(r), Payload(r)) == Some(StoreCallOf(c))
  {
    match c
    case GuestGet(_, _) =>
    case GuestDel(_) =>
    case GuestSet(k, v) => KeyValueRoundTrip(k, v);
    case GuestList(p, limit, _) => ListRequestRoundTrip(p, limit);
    case GuestCas(k, e, v) => CasRoundTrip(k, e, v);
  }

  /** The keys of an answer, if it is a list within the limits that both paths check first. */
  predicate ListsKeys(c: GuestCall, a: StoreAnswer) {
    c.GuestList? && a.Keys? && |a.keys| <= c.limit
  }

  /** The encoded list is one the proxy's decoder accepts, with no more keys than asked for. */
  predicate Parses(keys: seq<bytes>, limit: nat) {
    var back := DecodeKeyList(EncodeKeyList(keys));
    back.Some? && |back.value| <= limit
  }

  /** For keys whose length the encoding can carry, that is: none empty and none over the cap. */
  lemma ParsesIff(keys: seq<bytes>, limit: nat)
    requires |keys| <= limit <= KV_MAX_LIST && forall i :: 0 <= i < |keys| ==> |keys[i]| < U16
    ensures Parses(keys, limit) <==> AllListable(keys)
  {
    KeyListRoundTrip(keys, 0);
  }

  /** The proxy's answer looks to the guest like the store's if and only if a listed result parses. */
  lemma AnswerSurvives(c: GuestCall, a: StoreAnswer)
    requires Rejected(c).None?
    ensures GuestView(c, ProxyAnswer(StoreCallOf(c), ReplyTo(StoreCallOf(c), a))) == GuestView(c, a)
            <==> (ListsKeys(c, a) ==> Parses(a.keys, c.limit))
  {
    var rp := ReplyTo(StoreCallOf(c), a);
    match c
    case GuestGet(_, _) =>
      if a.Value? {
        assert rp[1..] == a.v;
      }
    case GuestList(_, limit, cap) =>
      if a.Keys? && |a.keys| <= limit {
        ListSurvives(a.keys, limit, cap);
      }
    case _ =>
  }

  /** A listed result, there and back: the same bytes exactly when it parses, else an internal error. */
  lemma ListSurvives(keys: seq<bytes>, limit: nat, cap: nat)
    requires 1 <= limit <= KV_MAX_LIST && |keys| <= limit
    ensures var c := GuestList([], limit, cap);
      GuestView(c, ProxyAnswer(SList([], limit), ReplyTo(SList([], limit), Keys(keys)))) == GuestView(c, Keys(keys)) <==> Parses(keys, limit)
  {
    var rp := ReplyTo(SList([], limit), Keys(keys));
    assert rp[1..] == EncodeKeyList(keys);
    if DecodeKeyList(EncodeKeyList(keys)).Some? {
      KeyListReencodes(EncodeKeyList(keys), 0);
    }
    hide EncodeKeyList, DecodeKeyListFrom;
  }

  /** The code tells a guest exactly what the store answered: no two outcomes share one. */
  lemma CodeTells(c: GuestCall, store: Store)
    requires Rejected(c).None?
    ensures var e, a := Direct(c, Some(store)), store(StoreCallOf(c));
      var write := c.GuestSet? || c.GuestCas? || c.GuestDel?;
      && (e.code == -1 <==> c.GuestGet? && a.NoValue?)
      && (e.code == -3 <==> (c.GuestSet? || c.GuestCas?) && a == Wrote(KvStore.Quota))
      && (e.code == -5 <==> c.GuestCas? && a == Wrote(KvStore.Conflict))
      && (write && e.code == 0 <==> write && a == Wrote(KvStore.Done))
      && (c.GuestGet? && e.code >= 0 <==> c.GuestGet? && a.Value?)
      && (c.GuestGet? && a.Value? ==> e.code == |a.v| && e.written == if |a.v| <= c.cap then a.v else [])
      && (c.GuestList? && e.code >= 0 <==> c.GuestList? && a.Keys? && |a.keys| <= c.limit)
      && (c.GuestList? && e.code >= 0 ==> e.code == |EncodeKeyList(a.keys)| && e.written == if e.code <= c.cap then EncodeKeyList(a.keys) else [])
      && (e.code < 0 ==> e.written == [] && e.code in {-1, -3, -4, -5})
  {
    hide EncodeKeyList;
  }

  /** Without a store a call fails cleanly; a call past its caps never reaches one. */
  lemma RefusedBefore(c: GuestCall, store: Option<Store>)
    requires store.None? || Rejected(c).Some?
    ensures Direct(c, store) == Effect([], if store.None? then -4 else -2, [])
  {}

  /** A reply too long for a frame carries a value or a list, and the guest would have seen it in process. */
  lemma TooLongIsSeen(c: GuestCall, a: StoreAnswer)
    requires |ReplyTo(StoreCallOf(c), a)| > MAX_FRAME
    ensures GuestView(c, StoreError) != GuestView(c, a)
  {
    hide EncodeKeyList;
  }

  /**
   Parity: for every store state and every guest call, the call through the boundary
   reaches the store as the same call and gives the guest the same code and bytes, if
   and only if the reply fits a frame and a listed result parses. What guests write
   themselves always fits (below) and parses, so a difference takes a store filled elsewhere.
   */
  lemma KvParity(c: GuestCall, store: Option<Store>)
    requires CasHashOk(c)
    ensures Remote(c, store) == Direct(c, store) <==>
            (store.Some? && Rejected(c).None? ==>
               var a := store.value(StoreCallOf(c));
               |ReplyTo(StoreCallOf(c), a)| <= MAX_FRAME && (ListsKeys(c, a) ==> Parses(a.keys, c.limit)))
  {
    hide Decoded, Payload, GuestView, ProxyAnswer, ReplyTo, Parses;
    if store.Some? && Rejected(c).None? {
      CallSurvives(c);
      var a := store.value(StoreCallOf(c));
      if |ReplyTo(StoreCallOf(c), a)| <= MAX_FRAME {
        AnswerSurvives(c, a);
      } else {
        TooLongIsSeen(c, a);
      }
    }
  }

  lemma {:induction false} KeyListLength(keys: seq<bytes>)
    requires AllListable(keys)
    ensures |EncodeKeyList(keys)| <= |keys| * (2 + KV_MAX_KEY)
  {
    if keys != [] {
      AllListableCons(keys);
      KeyListLength(keys[1..]);
    }
  }

  /** Values and keys within the guest's own caps always fit. */
  lemma OwnRepliesFit(c: StoreCall, a: StoreAnswer)
    requires (a.Value? ==> |a.v| <= KV_MAX_VALUE) && (a.Keys? ==> AllListable(a.keys))
    ensures |ReplyTo(c, a)| <= MAX_FRAME
  {
    hide EncodeKeyList, AllListable;
    if a.Keys? {
      KeyListLength(a.keys);
    }
  }

  /** Two inputs behind it: a store that lists an empty key, and one that holds a value of 64 MiB. */
  lemma ParityFails()
    ensures var c, store := GuestList([], 1, 100), Some((s: StoreCall) => Keys([[]]));
      Direct(c, store).code == 2 && Remote(c, store).code == KV_ERR_INTERNAL
    ensures var c, store := GuestGet([7], 100), Some((s: StoreCall) => Value(seq(MAX_FRAME, i => 0)));
      Direct(c, store).code == MAX_FRAME && Remote(c, store).code == KV_ERR_INTERNAL
  {
    var list, get := GuestList([], 1, 100), GuestGet([7], 100);
    CallSurvives(list);
    CallSurvives(get);
    hide Decoded, Payload;
    EmptyKeyListed();
  }

  lemma EmptyKeyListed()
    ensures EncodeKeyList([[]]) == [0, 0] && DecodeKeyList([0, 0]) == None
  {
  }

  // ----- identity, environment, timers and publishing

  datatype IdentityKind = SshKey | Anonymous | OtherKind

  datatype HostIdentity = HostIdentity(user: bytes, authenticated: bool, kind: IdentityKind, ownsApp: bool)

  function KindToAbi(k: IdentityKind): (b: byte) {
    match k case SshKey => 1 case Anonymous => 2 case OtherKind => 0
  }

  function KindFromAbi(b: byte): (k: IdentityKind) {
    if b == 1 then SshKey else if b == 2 then Anonymous else OtherKind
  }

  /** The bytes `auth_whoami` hands the guest. */
  function WhoamiBytes(id: HostIdentity): (bs: bytes) {
    EncodeIdentity(Identity(id.user, id.authenticated, KindToAbi(id.kind), id.ownsApp))
  }

  const NOBODY: HostIdentity := HostIdentity([], false, OtherKind, false)

  /** The parent's reply to `opAuth`: a status byte, then the identity if there is a capability. */
  function AuthReply(auth: Option<HostIdentity>): (rp: bytes) {
    match auth case None => [0] case Some(id) => [1] + WhoamiBytes(id)
  }

  function ProxyWhoami(rp: bytes): (r: HostIdentity) {
    if rp == [] || rp[0] == 0 then NOBODY
    else match DecodeIdentity(rp[1..])
      case None => NOBODY
      case Some(w) => HostIdentity(w.user, w.authenticated, KindFromAbi(w.kind), w.ownsApp)
  }

  const AUTH_ERR_INTERNAL := -1

  /** `auth_whoami` over whatever identity service it was given, if any. */
  function GuestWhoami(auth: Option<HostIdentity>, cap: nat): (r: (int, bytes)) {
    match auth case None => (AUTH_ERR_INTERNAL, []) case Some(id) => Offer(WhoamiBytes(id), cap)
  }

  /** In the worker the service is the proxy, present exactly when the parent announced the capability. */
  function RemoteWhoami(auth: Option<HostIdentity>, cap: nat): (r: (int, bytes)) {
    GuestWhoami(if auth.Some? then Some(ProxyWhoami(AuthReply(auth))) else None, cap)
  }

  /** With or without the capability, for every identity and buffer, the guest sees the same code and bytes. */
  lemma AuthParity(auth: Option<HostIdentity>, cap: nat)
    ensures RemoteWhoami(auth, cap) == GuestWhoami(auth, cap)
  {
    if auth.Some? {
      var id := auth.value;
      assert AuthReply(auth)[1..] == WhoamiBytes(id);
      IdentityRoundTrip(Identity(id.user, id.authenticated, KindToAbi(id.kind), id.ownsApp));
    }
  }

  function EnvReply(found: Option<bytes>): (rp: bytes) {
    match found case None => [0] case Some(v) => [1] + v
  }

  function ProxyEnv(rp: bytes): (found: Option<bytes>) {
    if rp == [] || rp[0] == 0 then None else Some(rp[1..])
  }

  const ENV_ERR_NOT_FOUND := -1
  const ENV_ERR_TOO_LARGE := -2
  const ENV_ERR_INTERNAL := -3

  type Env = bytes -> Option<bytes>

  /** `env_get` over whatever environment it was given, if any. */
  function GuestEnv(env: Option<Env>, key: bytes, cap: nat): (r: (int, bytes)) {
    if env.None? then (ENV_ERR_INTERNAL, [])
    else if |key| == 0 || |key| > ENV_MAX_KEY then (ENV_ERR_TOO_LARGE, [])
    else match env.value(key)
      case None => (ENV_ERR_NOT_FOUND, [])
      case Some(v) => Offer(v, cap)
  }

  /** The parent serves the key it received, and ends the session over one outside the caps. */
  function ServedEnv(env: Env, payload: bytes): (rp: Option<bytes>) {
    if |payload| == 0 || |payload| > ENV_MAX_KEY then None else Some(EnvReply(env(payload)))
  }

  function EnvAnswer(rp: Option<bytes>): (found: Option<bytes>) {
    if rp.None? then None else ProxyEnv(rp.value)
  }

  /** The proxy environment; the host function keeps keys outside the caps from it. */
  function ProxiedEnv(env: Env): (proxy: Env) {
    key => if GuestAllows(EnvGet(key)) then EnvAnswer(ServedEnv(env, Payload(EnvGet(key)))) else None
  }

  function RemoteEnv(env: Option<Env>, key: bytes, cap: nat): (r: (int, bytes)) {
    GuestEnv(if env.Some? then Some(ProxiedEnv(env.value)) else None, key, cap)
  }

  /** For every environment, key and buffer the guest sees the same code and bytes. */
  lemma EnvParity(env: Option<Env>, key: bytes, cap: nat)
    ensures RemoteEnv(env, key, cap) == GuestEnv(env, key, cap)
  {
    if env.Some? && 1 <= |key| <= ENV_MAX_KEY {
      var found := env.value(key);
      if found.Some? {
        assert EnvReply(found)[1..] == found.value;
      }
    }
  }

  /** In numbers: -3 without an environment, -2 for a key out of range, -1 for one not set, else the length, and the value if it fits. */
  lemma EnvTells(env: Option<Env>, key: bytes, cap: nat)
    ensures var r := RemoteEnv(env, key, cap);
      if env.None? then r == (-3, [])
      else if !(1 <= |key| <= 256) then r == (-2, [])
      else match env.value(key)
        case None => r == (-1, [])
        case Some(v) => r.0 == |v| && r.1 == if |v| <= cap then v else []
  {
    EnvParity(env, key, cap);
    hide RemoteEnv;
  }

  /** The parent ends the session over a key out of range and otherwise answers the very key it was sent. */
  lemma EnvServed(env: Env, payload: bytes)
    ensures ServedEnv(env, payload).None? <==> |payload| == 0 || |payload| > 256
    ensures ServedEnv(env, payload).Some? ==> EnvAnswer(ServedEnv(env, payload)) == env(payload)
  {
    if ServedEnv(env, payload).Some? && env(payload).Some? {
      assert EnvReply(env(payload))[1..] == env(payload).value;
    }
  }

  /**
   In numbers: -1 without the capability, else a byte of flags and kind, a two-byte length
   and at most 256 bytes of user, written if they fit.
   */
  lemma WhoamiTells(auth: Option<HostIdentity>, cap: nat)
    ensures auth.None? ==> RemoteWhoami(auth, cap) == (-1, [])
    ensures auth.Some? ==>
      var id, r := auth.value, RemoteWhoami(auth, cap);
      var n := if |id.user| <= 256 then |id.user| else 256;
      && r.0 == 3 + n && |r.1| == (if 3 + n <= cap then 3 + n else 0)
      && (3 + n <= cap ==> IdentityLayout(r.1, id, n))
  {
    AuthParity(auth, cap);
    hide RemoteWhoami;
    if auth.Some? {
      WhoamiLayout(auth.value);
      hide WhoamiBytes, IdentityLayout;
    }
  }

  ghost predicate IdentityLayout(b: bytes, id: HostIdentity, n: nat)
    requires |b| == 3 + n && n <= |id.user|
  {
    var flags: nat, lo: nat, hi: nat := b[0], b[1], b[2];
    && flags == (if id.authenticated then 1 else 0) + (if id.ownsApp then 2 else 0)
                + (if id.kind == SshKey then 4 else if id.kind == Anonymous then 8 else 0)
    && lo + 256 * hi == n && b[3..] == id.user[..n]
  }

  lemma WhoamiLayout(id: HostIdentity)
    ensures var n := if |id.user| <= 256 then |id.user| else 256;
      |WhoamiBytes(id)| == 3 + n && IdentityLayout(WhoamiBytes(id), id, n)
  {
    var b, n := WhoamiBytes(id), if |id.user| <= 256 then |id.user| else 256;
    assert b[1..3] == LE16(n) && b[3..] == id.user[..n];
  }

  /** The parent's decoding of a timer request. */
  function ServedTimer(payload: bytes): (r: Option<(int, bool)>) {
    if |payload| != 9 || payload[8] > 1 then None else Some((FromU64(ReadLE64(payload[..8])), payload[8] == 1))
  }

  function TimerReply(code: int): (rp: bytes)
    requires IsInt32(code)
  {
    LE32(ToU32(code))
  }

  function ProxyTimer(rp: bytes): (code: int) {
    if |rp| != 4 then -3 else FromU32(ReadLE32(rp))
  }

  /** A timer start arrives with the same delay and kind, and its code comes back unchanged. */
  lemma TimerParity(delay: int, recurring: bool, code: int)
    requires IsInt64(delay) && IsInt32(code)
    ensures ServedTimer(Payload(TimerStart(delay, recurring))) == Some((delay, recurring))
    ensures ProxyTimer(TimerReply(code)) == code
  {
    hide LE64, ReadLE64, LE32, ReadLE32, ServedTimer, ProxyTimer, TimerReply, Payload;
    TimerStartSurvives(delay, recurring);
    TimerReplySurvives(code);
  }

  lemma TimerStartSurvives(delay: int, recurring: bool)
    requires IsInt64(delay)
    ensures ServedTimer(Payload(TimerStart(delay, recurring))) == Some((delay, recurring))
  {
    hide LE64, ReadLE64;
    var p := Payload(TimerStart(delay, recurring));
    assert |p| == 9 && p[..8] == LE64(ToU64(delay)) && p[8] == if recurring then 1 else 0;
    ReadWrite64(ToU64(delay));
    Signed64(delay);
    hide Payload, ToU64, FromU64;
  }

  lemma TimerReplySurvives(code: int)
    requires IsInt32(code)
    ensures ProxyTimer(TimerReply(code)) == code
  {
    hide LE32, ReadLE32;
    ReadWrite32(ToU32(code));
    Signed32(code);
    assert ToU32(code) % U32 == ToU32(code);
    hide ToU32, FromU32;
  }

  lemma Signed64(v: int)
    requires IsInt64(v)
    ensures FromU64(ToU64(v)) == v
  {}

  lemma Signed32(v: int)
    requires IsInt32(v)
    ensures FromU32(ToU32(v)) == v
  {}

  /** A timer service's answer to a cancel. */
  type Cancels = nat -> bool

  /** `timer_cancel` over a timer service, if any. */
  function GuestCancel(timers: Option<Cancels>, id: int): (code: int) {
    if timers.None? || id <= 0 then 0 else if timers.value(id) then 1 else 0
  }

  function ServedCancel(timers: Cancels, payload: bytes): (rp: Option<bytes>) {
    if |payload| != 4 then None else Some([if timers(ReadLE32(payload)) then 1 else 0])
  }

  /** The proxy: true only for a one-byte reply of one. */
  function ProxiedCancel(timers: Cancels, id: nat): (ok: bool)
    requires id < U32
  {
    match ServedCancel(timers, Payload(TimerCancel(id)))
    case None => false
    case Some(rp) => |rp| == 1 && rp[0] == 1
  }

  /** A cancel arrives with the same identifier, and its result comes back to the guest. */
  lemma CancelParity(timers: Cancels, id: int)
    requires IsInt32(id)
    ensures GuestCancel(Some(timers), id) == if id > 0 && ProxiedCancel(timers, id) then 1 else 0
  {
    hide LE32, ReadLE32;
    if id > 0 {
      ReadWrite32(id);
      assert id % U32 == id;
    }
  }

  function PublishReply(n: nat): (rp: bytes) {
    LE32(n)
  }

  function ProxyPublish(rp: bytes): (n: int) {
    if |rp| < 4 then 0 else FromU32(ReadLE32(rp[..4]))
  }

  /** A publish arrives whole and its subscriber count comes back. */
  lemma PublishParity(topic: bytes, data: bytes, n: nat)
    requires GuestAllows(BusPub(topic, data)) && IsInt32(n)
    ensures DecodeKeyValue(Payload(BusPub(topic, data))) == Some((topic, data))
    ensures ProxyPublish(PublishReply(n)) == n
  {
    KeyValueRoundTrip(topic, data);
    ReadWrite32(n);
    assert LE32(n)[..4] == LE32(n);
  }
}
