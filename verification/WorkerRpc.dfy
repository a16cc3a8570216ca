/**
 The boundary in motion: a worker's call written to one byte pipe, served by the
 parent against its in-memory store, answered on another pipe and read back into the
 reused reply buffer. Every write may be cut short or fail.
 */
module WorkerRpc {
  import opened Results
  import opened Bytes
  import opened Codecs
  import opened Framing
  import opened ProcBoundary
  import KvStore
  import KvOrder

  /**
   What the in-memory store may answer to a call, and the store afterwards. Only a listing
   is not spelled out; there is exactly one (`KvOrder.ListingUnique`).
   */
  ghost predicate Answers(s: KvStore.Mem, lim: KvStore.Limits, hash: KvStore.Hash, call: StoreCall, after: KvStore.Mem, a: StoreAnswer) {
    match call
    case SGet(k) => after == s && a == if k in s.m then Value(s.m[k]) else NoValue
    case SSet(k, v) =>
      var r := KvStore.MemStep(s, lim, (b: bytes) => [], KvStore.Put(k, v));
      after == r.0 && a == Wrote(r.1)
    case SDel(k) => after == KvStore.MemStep(s, lim, (b: bytes) => [], KvStore.Del(k)).0 && a == Wrote(KvStore.Done)
    case SList(prefix, limit) =>
      && after == s
      && if 1 <= limit <= KvStore.MAX_LIST then a.Keys? && KvOrder.IsListing(s.m.Keys, prefix, limit, a.keys) else a == StoreError
    case SCas(k, e, v) =>
      var r := KvStore.MemStep(s, lim, hash, KvStore.Cas(k, e, v));
      after == r.0 && a == Wrote(r.1)
  }

  /** The answer is determined by the store and the call. */
  lemma AnswerUnique(s: KvStore.Mem, lim: KvStore.Limits, hash: KvStore.Hash, call: StoreCall,
                     p: KvStore.Mem, a: StoreAnswer, q: KvStore.Mem, b: StoreAnswer)
    requires Answers(s, lim, hash, call, p, a) && Answers(s, lim, hash, call, q, b)
    ensures p == q && a == b
  {
    hide KvOrder.IsListing, KvStore.MemStep;
    if call.SList? && 1 <= call.limit <= KvStore.MAX_LIST {
      KvOrder.ListingUnique(s.m.Keys, call.prefix, call.limit, a.keys, b.keys);
    }
  }

  /** Every stored key is one a guest could have written. */
  ghost predicate OwnKeys(m: KvStore.Contents) {
    forall k :: k in m ==> KeyOk(k)
  }

  /** Accepted guest calls keep it so, and then every listing parses: for such stores parity has no exception. */
  lemma OwnKeysParse(s: KvStore.Mem, lim: KvStore.Limits, hash: KvStore.Hash, c: GuestCall, after: KvStore.Mem, a: StoreAnswer)
    requires OwnKeys(s.m) && Rejected(c).None? && Answers(s, lim, hash, StoreCallOf(c), after, a)
    ensures OwnKeys(after.m) && (ListsKeys(c, a) ==> Parses(a.keys, c.limit))
  {
    if ListsKeys(c, a) {
      forall i | 0 <= i < |a.keys| ensures ListableKey(a.keys[i]) {
        assert a.keys[i] in s.m.Keys;
      }
      ParsesIff(a.keys, c.limit);
    }
  }

  lemma KeepsOwnKeys(s: KvStore.Mem, lim: KvStore.Limits, hash: KvStore.Hash, c: GuestCall, after: KvStore.Mem, a: StoreAnswer)
    requires Rejected(c).None? && (after == s || Answers(s, lim, hash, StoreCallOf(c), after, a))
    ensures OwnKeys(s.m) ==> OwnKeys(after.m)
    ensures Answers(s, lim, hash, StoreCallOf(c), after, a) && (c.GuestList? ==> OwnKeys(s.m)) && ListsKeys(c, a) ==> Parses(a.keys, c.limit)
  {
    if OwnKeys(s.m) && Answers(s, lim, hash, StoreCallOf(c), after, a) {
      OwnKeysParse(s, lim, hash, c, after, a);
    }
  }

  // ----- what the guest sees, in numbers and over the stored map

  /** Keys of 1 to 256 bytes, prefixes of up to 256, values of up to 64 KiB, 1 to 256 keys listed. */
  predicate TooBig(c: GuestCall) {
    match c
    case GuestGet(k, _) => !(1 <= |k| <= 256)
    case GuestSet(k, v) => !(1 <= |k| <= 256 && |v| <= 65536)
    case GuestDel(k) => !(1 <= |k| <= 256)
    case GuestList(p, limit, _) => !(|p| <= 256 && 1 <= limit <= 256)
    case GuestCas(k, _, v) => !(1 <= |k| <= 256 && |v| <= 65536)
  }

  /** The hash a swap must name: that of the stored value, or 32 zero bytes for an absent key. */
  ghost predicate HashIs(m: KvStore.Contents, hash: KvStore.Hash, k: bytes, e: bytes) {
    if k in m then hash(m[k]) == e else e == seq(32, _ => 0)
  }

  /** The result is the length of `raw`, and `raw` is written whole if it fits the buffer and not at all otherwise. */
  predicate Offered(raw: bytes, cap: nat, code: int, written: bytes) {
    code == |raw| && (|raw| <= cap ==> written == raw) && (|raw| > cap ==> written == [])
  }

  /** The write went in and reports 0, or the quota refused it, which reports -3 and changes nothing. */
  ghost predicate WriteReported(m: KvStore.Contents, lim: KvStore.Limits, k: bytes, v: bytes, after: KvStore.Contents, code: int) {
    if KvStore.Fits(m, lim, k, v) then code == 0 && after == m[k := v] else code == -3 && after == m
  }

  ghost predicate Sees(m: KvStore.Contents, lim: KvStore.Limits, hash: KvStore.Hash, c: GuestCall,
                       after: KvStore.Contents, code: int, written: bytes) {
    if TooBig(c) then code == -2 && written == [] && after == m
    else match c
      case GuestGet(k, cap) => after == m && if k in m then Offered(m[k], cap, code, written) else code == -1 && written == []
      case GuestSet(k, v) => written == [] && WriteReported(m, lim, k, v, after, code)
      case GuestDel(k) => written == [] && code == 0 && after == m - {k}
      case GuestList(p, limit, cap) =>
        after == m && exists keys :: KvOrder.IsListing(m.Keys, p, limit, keys) && Offered(EncodeKeyList(keys), cap, code, written)
      case GuestCas(k, e, v) =>
        written == [] && if HashIs(m, hash, k, e) then WriteReported(m, lim, k, v, after, code) else code == -5 && after == m
  }

  lemma SeesAnswer(s: KvStore.Mem, lim: KvStore.Limits, hash: KvStore.Hash, c: GuestCall, after: KvStore.Mem, a: StoreAnswer)
    requires KvStore.MemOk(s) && Rejected(c).None? && Answers(s, lim, hash, StoreCallOf(c), after, a)
    ensures Sees(s.m, lim, hash, c, after.m, GuestView(c, a).0, GuestView(c, a).1)
  {
    hide KvStore.MemOk, KvStore.MemStep, KvStore.Fits, EncodeKeyList;
    match c
    case GuestGet(_, _) =>
    case GuestSet(k, v) => KvStore.MemRefines(s, lim, (b: bytes) => [], KvStore.Put(k, v));
    case GuestDel(k) => KvStore.MemRefines(s, lim, (b: bytes) => [], KvStore.Del(k));
    case GuestList(_, _, _) =>
      assert Offered(EncodeKeyList(a.keys), c.cap, GuestView(c, a).0, GuestView(c, a).1);
    case GuestCas(k, e, v) => KvStore.MemRefines(s, lim, hash, KvStore.Cas(k, e, v));
  }

  lemma SeesRejected(m: KvStore.Contents, lim: KvStore.Limits, hash: KvStore.Hash, c: GuestCall)
    ensures Rejected(c).Some? <==> TooBig(c)
    ensures Rejected(c).Some? ==> Sees(m, lim, hash, c, m, Rejected(c).value, [])
  {}

  /** A value set is the value read: whole if the buffer has room for it, its length in any case. */
  lemma SetThenGet(m: KvStore.Contents, lim: KvStore.Limits, hash: KvStore.Hash, k: bytes, v: bytes,
                   n: KvStore.Contents, w: bytes, cap: nat, o: KvStore.Contents, code: int, got: bytes)
    requires Sees(m, lim, hash, GuestSet(k, v), n, 0, w) && Sees(n, lim, hash, GuestGet(k, cap), o, code, got)
    ensures o == n && code == |v| && (|v| <= cap ==> got == v)
  {
    hide KvStore.Fits;
  }

  /** A key deleted reads as absent. */
  lemma DeleteThenGet(m: KvStore.Contents, lim: KvStore.Limits, hash: KvStore.Hash, k: bytes,
                      n: KvStore.Contents, w: bytes, cap: nat, o: KvStore.Contents, code: int, got: bytes)
    requires Sees(m, lim, hash, GuestDel(k), n, 0, w) && Sees(n, lim, hash, GuestGet(k, cap), o, code, got)
    ensures o == n && code == -1 && got == []
  {}

  /** The store's own answer, as an object. */
  method Ask(kv: KvStore.MemStore, hash: KvStore.Hash, call: StoreCall) returns (a: StoreAnswer)
    requires kv.Valid()
    modifies kv
    ensures kv.Valid() && Answers(old(kv.View()), kv.lim, hash, call, kv.View(), a)
  {
    hide KvStore.MemStep, KvStore.MemOk, KvOrder.IsListing;
    match call
    case SGet(k) =>
      var value, found := kv.Get(k);
      a := if found then Value(value) else NoValue;
    case SSet(k, v) =>
      var verdict := kv.Set(k, v);
      a := Wrote(verdict);
    case SDel(k) =>
      kv.Delete(k);
      a := Wrote(KvStore.Done);
    case SList(prefix, limit) =>
      var keys := kv.List(prefix, limit);
      a := if keys.Some? then Keys(keys.value) else StoreError;
    case SCas(k, e, v) =>
      var verdict := kv.CompareAndSwap(hash, k, e, v);
      a := Wrote(verdict);
  }

  const KV_OPS: set<byte> := {OP_KV_GET, OP_KV_SET, OP_KV_DEL, OP_KV_LIST, OP_KV_CAS}

  /** The reply to a key/value payload the parent cannot decode or will not accept. */
  function BadReply(op: byte): (bs: bytes) {
    if op == OP_KV_CAS then [3] else if op == OP_KV_LIST then [1] else [2]
  }

  /** A refusal looks like a store error to the worker, never like a verdict. */
  lemma RefusalIsError(s: StoreCall)
    ensures ProxyAnswer(s, BadReply(OpOf(RequestOf(s)))) == StoreError
  {}

  /** One turn of the parent: read a bounded request, serve it, write one reply. `a` is the store's answer. */
  method ServeOne(up: Pipe, down: Pipe, reader: Reader, kv: KvStore.MemStore, hash: KvStore.Hash) returns (ok: bool, ghost a: StoreAnswer)
    requires kv.Valid() && up != down
    modifies up, down, reader, reader.buf, kv
    ensures kv.Valid() && (reader.buf == old(reader.buf) || fresh(reader.buf))
    ensures var r := Read(old(up.data), MaxWorkerPayload);
      if !(r.Received? && r.msg.op in KV_OPS) then !ok && kv.View() == old(kv.View())
      else match Decoded(r.msg.op, r.msg.payload)
           case None =>
             kv.View() == old(kv.View())
             && (ok ==> up.data == r.rest && down.data == old(down.data) + Encode(Message(OP_RESP, BadReply(r.msg.op))))
           case Some(call) =>
             Answers(old(kv.View()), kv.lim, hash, call, kv.View(), a)
             && (ok ==> |ReplyTo(call, a)| <= MAX_FRAME
                        && up.data == r.rest && down.data == old(down.data) + Encode(Message(OP_RESP, ReplyTo(call, a))))
  {
    hide Read, Encode, MaxWorkerPayload, Answers, ReplyTo, Decoded, KvStore.MemOk;
    a := StoreError;
    var received, op, n;
    ghost var result;
    received, op, n, result := reader.Next(up, MaxWorkerPayload);
    if !received || op !in KV_OPS {
      return false, a;
    }
    var payload := reader.buf[..n];
    var call := Decoded(op, payload);
    if call.None? {
      ok := WriteMessage(down, Message(OP_RESP, BadReply(op)));
      return;
    }
    var answer := Ask(kv, hash, call.value);
    a := answer;
    ok := WriteMessage(down, Message(OP_RESP, ReplyTo(call.value, answer)));
  }

  function AnySize(op: byte): (n: nat) {
    MAX_FRAME
  }

  /** One session: the two pipes, the reused buffer of each side, and the parent's store. */
  class Session {
    const up: Pipe
    const down: Pipe
    const requests: Reader
    const replies: Reader
    const kv: KvStore.MemStore
    const hash: KvStore.Hash

    /** The worker holds the turn: nothing is in flight. */
    ghost predicate Idle()
      reads up, down, kv, requests, replies
    {
      && up != down && requests != replies && requests.buf != replies.buf
      && kv.Valid() && up.data == [] && down.data == []
    }

    constructor (maxKeys: int, maxBytes: int, hash: KvStore.Hash)
      ensures Idle() && kv.View().m == map[] && this.hash == hash
    {
      this.hash := hash;
      up := new Pipe();
      down := new Pipe();
      requests := new Reader();
      replies := new Reader();
      kv := new KvStore.MemStore(maxKeys, maxBytes);
    }

    /**
     `call`: one request, one reply, in that order; a reply must carry the response
     operation. `a` is the store's answer to the call, if it got that far.
     */
    method Call(r: Request) returns (reply: Option<bytes>, ghost a: StoreAnswer)
      requires Idle() && GuestAllows(r) && OpOf(r) in KV_OPS && Decoded(OpOf(r), Payload(r)).Some?
      modifies up, down, requests, replies, requests.buf, replies.buf, kv
      ensures kv.Valid()
      ensures var call := Decoded(OpOf(r), Payload(r)).value;
        && (reply.Some? ==> Idle() && Answers(old(kv.View()), kv.lim, hash, call, kv.View(), a) && reply.value == ReplyTo(call, a))
        && (reply.None? ==> kv.View() == old(kv.View()) || Answers(old(kv.View()), kv.lim, hash, call, kv.View(), a))
    {
      hide Read, Encode, Answers, ReplyTo, Decoded, Payload, GuestAllows, MaxWorkerPayload, KvStore.MemOk;
      a := StoreError;
      var m := Message(OpOf(r), Payload(r));
      RequestFits(r);
      ReadEncoded(m, [], MaxWorkerPayload);
      var sent := WriteMessage(up, m);
      if !sent {
        return None, a;
      }
      assert up.data == Encode(m) + [];
      var served;
      served, a := ServeOne(up, down, requests, kv, hash);
      if !served {
        return None, a;
      }
      ghost var call := Decoded(m.op, m.payload).value;
      ghost var answer := Message(OP_RESP, ReplyTo(call, a));
      assert down.data == Encode(answer) + [];
      ReadEncoded(answer, [], AnySize);
      var ok, op, n;
      ghost var result;
      ok, op, n, result := replies.Next(down, AnySize);
      if !ok || op != OP_RESP {
        return None, a;
      }
      reply := Some(replies.buf[..n]);
    }

    /**
     A guest's key/value call through the pipes. Whenever it completes, the store changed
     as by the same call made directly, and the guest sees the code and bytes of that call,
     if and only if a listed result parses, as it does in a store that only guests wrote;
     whenever a pipe fails, the guest sees an internal error and the call happened once or
     not at all.
     */
    method GuestKv(c: GuestCall) returns (completed: bool, code: int, written: bytes, ghost a: StoreAnswer)
      requires Idle() && CasHashOk(c)
      modifies up, down, requests, replies, requests.buf, replies.buf, kv
      ensures kv.Valid()
      ensures completed && (c.GuestList? ==> OwnKeys(old(kv.m))) ==> Sees(old(kv.m), kv.lim, hash, c, kv.m, code, written)
      ensures OwnKeys(old(kv.m)) ==> OwnKeys(kv.m)
      ensures Rejected(c).Some? ==> completed && Idle() && (code, written) == (Rejected(c).value, []) && kv.View() == old(kv.View())
      ensures Rejected(c).None? && completed ==>
        && Idle() && Answers(old(kv.View()), kv.lim, hash, StoreCallOf(c), kv.View(), a)
        && ((code, written) == GuestView(c, a) <==> (ListsKeys(c, a) ==> Parses(a.keys, c.limit)))
      ensures Rejected(c).None? && !completed ==>
        && (code, written) == (KV_ERR_INTERNAL, [])
        && (kv.View() == old(kv.View()) || Answers(old(kv.View()), kv.lim, hash, StoreCallOf(c), kv.View(), a))
    {
      hide Answers, ReplyTo, Decoded, Payload, GuestAllows, GuestView, ProxyAnswer, Parses, OwnKeys, Sees, TooBig;
      a := StoreError;
      SeesRejected(kv.m, kv.lim, hash, c);
      if Rejected(c).Some? {
        return true, Rejected(c).value, [], a;
      }
      ghost var before := kv.View();
      CallSurvives(c);
      var call := StoreCallOf(c);
      var reply;
      reply, a := Call(RequestOf(call));
      KeepsOwnKeys(before, kv.lim, hash, c, kv.View(), a);
      if reply.None? {
        return false, KV_ERR_INTERNAL, [], a;
      }
      AnswerSurvives(c, a);
      SeesAnswer(before, kv.lim, hash, c, kv.View(), a);
      var view := GuestView(c, ProxyAnswer(call, reply.value));
      return true, view.0, view.1, a;
    }
  }
}
