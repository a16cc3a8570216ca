/**
 The bounded framing between the runner and its worker: one operation byte, a
 32-bit little-endian length, the payload. The writer sits on a pipe that may
 accept any part of what it is handed; the reader reuses one payload buffer.
 */
module Framing {
  import opened Bytes

  const MAX_FRAME: nat := 64 * 1024 * 1024
  const INLINE_WRITE_MAX: nat := 4096

  datatype Message = Message(op: byte, payload: bytes)

  /** An operation-specific payload bound, as the parent passes to its reads. */
  type Bound = byte -> nat

  function Encode(m: Message): (bs: bytes) {
    [m.op] + LE32(|m.payload|) + m.payload
  }

  datatype ReadResult =
    | Received(msg: Message, rest: bytes)
    | ShortStream
    | ProtocolError

  /** One bounded read from the bytes available on the stream. */
  function Read(stream: bytes, maxFor: Bound): (r: ReadResult) {
    if |stream| < 5 then ShortStream
    else
      var n := ReadLE32(stream[1..5]);
      if n > MAX_FRAME || n > maxFor(stream[0]) then ProtocolError
      else if |stream| < 5 + n then ShortStream
      else Received(Message(stream[0], stream[5..5 + n]), stream[5 + n..])
  }

  predicate Fits(m: Message, maxFor: Bound) {
    |m.payload| <= MAX_FRAME && |m.payload| <= maxFor(m.op)
  }

  /** A framed message is read back exactly when it respects the operation's bound, and nothing after it is touched. */
  lemma ReadEncoded(m: Message, rest: bytes, maxFor: Bound)
    requires |m.payload| < U32
    ensures Read(Encode(m) + rest, maxFor) == if Fits(m, maxFor) then Received(m, rest) else ProtocolError
  {
    hide Encode, LE32, ReadLE32;
    ReadWrite32(|m.payload|);
    EncodedParts(m, rest);
    assert |m.payload| % U32 == |m.payload|;
  }

  lemma EncodedParts(m: Message, rest: bytes)
    ensures var s := Encode(m) + rest; var n := |m.payload|;
      |s| >= 5 + n && s[0] == m.op && s[1..5] == LE32(n) && s[5..5 + n] == m.payload && s[5 + n..] == rest
  {
    hide LE32;
  }

  function EncodeAll(ms: seq<Message>): (bs: bytes) {
    if ms == [] then [] else Encode(ms[0]) + EncodeAll(ms[1..])
  }

  /** `count` reads in a row; stops at the first that fails. */
  function ReadMany(stream: bytes, count: nat, maxFor: Bound): (r: (seq<Message>, bytes)) {
    if count == 0 then ([], stream)
    else match Read(stream, maxFor)
      case Received(m, rest) =>
        var more := ReadMany(rest, count - 1, maxFor);
        ([m] + more.0, more.1)
      case _ => ([], stream)
  }

  /** Any sequence of messages within bounds survives the stream in order. */
  lemma {:induction false} StreamRoundTrip(ms: seq<Message>, rest: bytes, maxFor: Bound)
    requires forall i :: 0 <= i < |ms| ==> Fits(ms[i], maxFor)
    ensures ReadMany(EncodeAll(ms) + rest, |ms|, maxFor) == (ms, rest)
    decreases |ms|
  {
    hide Read, Encode;
    if ms == [] {
      assert EncodeAll(ms) + rest == rest;
    } else {
      assert EncodeAll(ms) + rest == Encode(ms[0]) + (EncodeAll(ms[1..]) + rest);
      ReadEncoded(ms[0], EncodeAll(ms[1..]) + rest, maxFor);
      StreamRoundTrip(ms[1..], rest, maxFor);
      assert [ms[0]] + ms[1..] == ms;
    }
  }

  /** A byte pipe. Each `Write` takes some prefix of what it is given and may fail at any time. */
  class Pipe {
    var data: bytes

    constructor ()
      ensures data == []
    {
      data := [];
    }

    method Write(p: bytes) returns (n: nat, err: bool)
      modifies this
      ensures n <= |p| && data == old(data) + p[..n]
    {
      n :| 0 <= n <= |p|;
      err :| err || !err;
      data := data + p[..n];
    }
  }

  /** `writeAll`: on success every byte arrived, in order, however short the writes were. */
  method WriteAll(w: Pipe, bs: bytes) returns (ok: bool)
    modifies w
    ensures ok ==> w.data == old(w.data) + bs
    ensures exists k :: 0 <= k <= |bs| && w.data == old(w.data) + bs[..k]
  {
    var p := bs;
    ghost var sent := 0;
    assert w.data + bs[..0] == w.data;
    while |p| > 0
      invariant 0 <= sent <= |bs| && p == bs[sent..]
      invariant w.data == old(w.data) + bs[..sent]
      decreases |p|
    {
      var n, err := w.Write(p);
      assert bs[..sent] + p[..n] == bs[..sent + n];
      sent := sent + n;
      if n > 0 {
        p := p[n..];
      }
      if err || n == 0 {
        return false;
      }
    }
    assert bs[..sent] == bs;
    return true;
  }

  /** `Write`: small messages go out in one piece, large ones as header and payload. */
  method WriteMessage(w: Pipe, m: Message) returns (ok: bool)
    modifies w
    ensures |m.payload| > MAX_FRAME ==> !ok && w.data == old(w.data)
    ensures ok ==> w.data == old(w.data) + Encode(m)
    ensures exists k :: 0 <= k <= |Encode(m)| && w.data == old(w.data) + Encode(m)[..k]
  {
    var header := [m.op] + LE32(|m.payload|);
    var whole := header + m.payload;
    assert whole == Encode(m);
    hide LE32, Encode;
    if |m.payload| > MAX_FRAME {
      assert w.data == old(w.data) + whole[..0];
      return false;
    }
    if |m.payload| <= INLINE_WRITE_MAX {
      ok := WriteAll(w, whole);
      return;
    }
    ok := WriteAll(w, header);
    if !ok {
      ghost var k :| 0 <= k <= |header| && w.data == old(w.data) + header[..k];
      assert header[..k] == whole[..k];
      return;
    }
    ok := WriteAll(w, m.payload);
    ghost var k :| 0 <= k <= |m.payload| && w.data == (old(w.data) + header) + m.payload[..k];
    SentSoFar(old(w.data), header, m.payload, k);
    SentSoFar(old(w.data), header, m.payload, |m.payload|);
    assert m.payload[..|m.payload|] == m.payload && whole[..|whole|] == whole;
  }

  lemma SentSoFar(before: bytes, header: bytes, payload: bytes, k: nat)
    requires k <= |payload|
    ensures (before + header) + payload[..k] == before + (header + payload)[..|header| + k]
  {}

  /** `AppendReadBounded` with its reusable buffer. */
  class Reader {
    var buf: array<byte>

    constructor ()
      ensures fresh(buf)
    {
      buf := new byte[0];
    }

    /**
     The payload is returned in the first `n` bytes of `buf`, whatever the buffer
     held before and whether or not it had to grow.
     */
    method Next(w: Pipe, maxFor: Bound) returns (ok: bool, op: byte, n: nat, ghost result: ReadResult)
      modifies this, buf, w
      ensures buf == old(buf) || fresh(buf)
      ensures result == Read(old(w.data), maxFor)
      ensures ok <==> result.Received?
      ensures ok ==> n <= buf.Length && Message(op, buf[..n]) == result.msg && w.data == result.rest
    {
      result := Read(w.data, maxFor);
      ok, op, n := false, 0, 0;
      if |w.data| < 5 {
        w.data := [];
        return;
      }
      op, n := w.data[0], ReadLE32(w.data[1..5]);
      w.data := w.data[5..];
      if n > MAX_FRAME || n > maxFor(op) {
        return;
      }
      if n > buf.Length {
        buf := new byte[n];
      }
      if |w.data| < n {
        w.data := [];
        return;
      }
      for i := 0 to n
        invariant n <= buf.Length && n <= |w.data| && w.data == old(w.data)[5..]
        invariant buf == old(buf) || fresh(buf)
        invariant buf[..i] == w.data[..i]
      {
        buf[i] := w.data[i];
      }
      w.data := w.data[n..];
      ok := true;
    }
  }

  // ----- a whole stream

  lemma {:induction false} EncodeAllSnoc(ms: seq<Message>, m: Message)
    ensures EncodeAll(ms + [m]) == EncodeAll(ms) + Encode(m)
    decreases |ms|
  {
    hide Encode;
    if ms == [] {
      assert (ms + [m])[1..] == [] && ms + [m] == [m];
    } else {
      assert (ms + [m])[1..] == ms[1..] + [m];
      EncodeAllSnoc(ms[1..], m);
    }
  }

  /** Sends messages one after the other, stopping at the first that cannot be written. */
  method SendAll(w: Pipe, ms: seq<Message>) returns (sent: nat)
    modifies w
    ensures sent <= |ms|
    ensures sent == |ms| ==> w.data == old(w.data) + EncodeAll(ms)
  {
    hide Encode;
    sent := 0;
    assert ms[..0] == [] && w.data + EncodeAll([]) == w.data;
    while sent < |ms|
      invariant 0 <= sent <= |ms| && w.data == old(w.data) + EncodeAll(ms[..sent])
    {
      var ok := WriteMessage(w, ms[sent]);
      if !ok {
        return;
      }
      EncodeAllSnoc(ms[..sent], ms[sent]);
      assert ms[..sent] + [ms[sent]] == ms[..sent + 1];
      assert old(w.data) + EncodeAll(ms[..sent]) + Encode(ms[sent]) == old(w.data) + EncodeAll(ms[..sent + 1]);
      sent := sent + 1;
    }
    assert ms[..|ms|] == ms;
  }

  /** Reads up to `count` messages through one buffer, stopping at the first that fails; each payload is copied out. */
  method ReceiveAll(w: Pipe, reader: Reader, count: nat, maxFor: Bound) returns (ms: seq<Message>)
    modifies w, reader, reader.buf
    ensures reader.buf == old(reader.buf) || fresh(reader.buf)
    ensures ms == ReadMany(old(w.data), count, maxFor).0
    ensures |ms| == count ==> w.data == ReadMany(old(w.data), count, maxFor).1
  {
    hide Read;
    ms := [];
    ghost var stream := w.data;
    assert [] + ReadMany(stream, count, maxFor).0 == ReadMany(stream, count, maxFor).0;
    while |ms| < count
      invariant |ms| <= count && (reader.buf == old(reader.buf) || fresh(reader.buf))
      invariant ReadMany(stream, count, maxFor) == (ms + ReadMany(w.data, count - |ms|, maxFor).0, ReadMany(w.data, count - |ms|, maxFor).1)
      decreases count - |ms|
    {
      ghost var before := w.data;
      var ok, op, n;
      ghost var result;
      ok, op, n, result := reader.Next(w, maxFor);
      if !ok {
        assert ReadMany(before, count - |ms|, maxFor) == ([], before);
        assert ms + [] == ms;
        return;
      }
      var m := Message(op, reader.buf[..n]);
      assert ReadMany(before, count - |ms|, maxFor).0 == [m] + ReadMany(w.data, count - |ms| - 1, maxFor).0;
      assert ms + ([m] + ReadMany(w.data, count - |ms| - 1, maxFor).0) == (ms + [m]) + ReadMany(w.data, count - |ms| - 1, maxFor).0;
      ms := ms + [m];
    }
    assert ms + [] == ms;
  }

  /**
   The whole property: any sequence of messages within bounds, sent over a pipe that cuts
   and fails writes as it likes, is received through one reused buffer as the same
   sequence, provided every write went through.
   */
  method Transfer(ms: seq<Message>, reader: Reader, maxFor: Bound) returns (sent: nat, received: seq<Message>)
    requires forall i :: 0 <= i < |ms| ==> Fits(ms[i], maxFor)
    modifies reader, reader.buf
    ensures sent <= |ms| && (sent == |ms| ==> received == ms)
  {
    var w := new Pipe();
    sent := SendAll(w, ms);
    received := [];
    if sent == |ms| {
      assert w.data == EncodeAll(ms) + [];
      StreamRoundTrip(ms, [], maxFor);
      received := ReceiveAll(w, reader, |ms|, maxFor);
    }
  }
}
