/**
 The guest ABI's two messages: input events (host to guest) and frames (guest to
 host). The append encoders fill a reused array in place; the laws say that the
 result depends on the message alone.
 */
module Wire {
  import opened Results
  import opened Bytes
  import opened Abi
  import opened Codecs

  const VERSION: byte := 4
  const MAGIC_EVENT: byte := 1
  const MAGIC_FRAME: byte := 2

  const KIND_MESSAGE := 3
  const KIND_MOUSE := 4
  const KIND_TIMER := 5

  const EVENT_LEN := 13

  datatype Event = Event(kind: byte, key: byte, ch: int, mods: byte, w: nat, h: nat, topic: bytes, data: bytes,
                         mouseX: nat, mouseY: nat, button: byte, action: byte, commandID: nat)

  predicate EventInRange(e: Event) {
    && IsInt32(e.ch) && e.commandID < U32
    && e.w < U16 && e.h < U16 && e.mouseX < U16 && e.mouseY < U16
    && |e.topic| < U16 && |e.data| < U32
  }

  /** The part of an event that its kind carries on the wire. */
  function Carried(e: Event): (r: Event) {
    var blank := Event(e.kind, 0, 0, 0, 0, 0, [], [], 0, 0, 0, 0, 0);
    if e.kind == KIND_MOUSE then
      blank.(ch := e.ch, mouseX := e.mouseX, mouseY := e.mouseY, button := e.button, action := e.action)
    else if e.kind == KIND_TIMER then blank.(commandID := e.commandID)
    else if e.kind == KIND_MESSAGE then
      blank.(key := e.key, ch := e.ch, mods := e.mods, w := e.w, h := e.h, topic := e.topic, data := e.data)
    else blank.(key := e.key, ch := e.ch, mods := e.mods, w := e.w, h := e.h)
  }

  function Word(e: Event): (n: nat)
    requires EventInRange(e)
    ensures n < U32
  {
    if e.kind == KIND_TIMER then e.commandID else ToU32(e.ch)
  }

  function First16(e: Event): (n: nat) {
    if e.kind == KIND_MOUSE then e.mouseX else e.w
  }

  function Second16(e: Event): (n: nat) {
    if e.kind == KIND_MOUSE then e.mouseY else e.h
  }

  function EventHead(e: Event): (bs: bytes)
    requires EventInRange(e)
    ensures |bs| == EVENT_LEN
  {
    [MAGIC_EVENT, VERSION, e.kind, if e.kind == KIND_MOUSE then e.button else e.key]
    + LE32(Word(e))
    + [if e.kind == KIND_MOUSE then e.action else e.mods]
    + LE16(First16(e)) + LE16(Second16(e))
  }

  function EventTail(e: Event): (bs: bytes) {
    if e.kind == KIND_MESSAGE then EncodeKeyValue(e.topic, Prefixed32(e.data, [])) else []
  }

  function EncodeEvent(e: Event): (bs: bytes)
    requires EventInRange(e)
  {
    EventHead(e) + EventTail(e)
  }

  function ReadHead(b: bytes): (e: Event)
    requires |b| == EVENT_LEN
  {
    var e := Event(b[2], b[3], FromU32(ReadLE32(b[4..8])), b[8], ReadLE16(b[9..11]), ReadLE16(b[11..13]), [], [],
                   0, 0, 0, 0, 0);
    if e.kind == KIND_MOUSE then
      e.(button := b[3], action := b[8], mouseX := e.w, mouseY := e.h, key := 0, mods := 0, w := 0, h := 0)
    else if e.kind == KIND_TIMER then
      e.(commandID := ReadLE32(b[4..8]), key := 0, ch := 0, mods := 0, w := 0, h := 0)
    else e
  }

  function DecodeEvent(b: bytes): (r: Option<Event>) {
    if |b| < EVENT_LEN || b[0] != MAGIC_EVENT || b[1] != VERSION then None
    else
      var e := ReadHead(b[..EVENT_LEN]);
      var tail := b[EVENT_LEN..];
      if e.kind != KIND_MESSAGE then (if tail == [] then Some(e) else None)
      else match DecodeKeyValue(tail)
        case None => None
        case Some((topic, rest)) =>
          match TakePrefixed32(rest)
          case None => None
          case Some((data, extra)) => if extra == [] then Some(e.(topic := topic, data := data)) else None
  }

  lemma HeadRoundTrip(e: Event)
    requires EventInRange(e)
    ensures ReadHead(EventHead(e)) == Carried(e).(topic := [], data := [])
  {
    hide LE32, LE16, ReadLE32, ReadLE16;
    var b := EventHead(e);
    assert b[4..8] == LE32(Word(e)) && b[9..11] == LE16(First16(e)) && b[11..13] == LE16(Second16(e));
    ReadWrite32(Word(e));
    ReadWrite16(First16(e));
    ReadWrite16(Second16(e));
  }

  /** Every in-range event arrives as exactly the fields its kind carries. */
  lemma EventRoundTrip(e: Event)
    requires EventInRange(e)
    ensures DecodeEvent(EncodeEvent(e)) == Some(Carried(e))
  {
    hide LE32, LE16, ReadLE32, ReadLE16, ReadHead;
    var b := EncodeEvent(e);
    assert b[..EVENT_LEN] == EventHead(e) && b[EVENT_LEN..] == EventTail(e);
    HeadRoundTrip(e);
    if e.kind == KIND_MESSAGE {
      KeyValueRoundTrip(e.topic, Prefixed32(e.data, []));
      TakeAfterPrefix32(e.data, []);
    }
  }

  // ----- frames

  const FRAME_HEADER_LEN := 8
  const CELL_LEN := 11

  predicate CellsInRange(cells: seq<Cell>) {
    forall i :: 0 <= i < |cells| ==> IsInt32(cells[i].ch)
  }

  function EncodeCell(c: Cell): (bs: bytes)
    requires IsInt32(c.ch)
    ensures |bs| == CELL_LEN
  {
    LE32(ToU32(c.ch)) + [c.fg.r, c.fg.g, c.fg.b, c.bg.r, c.bg.g, c.bg.b, c.decor]
  }

  function DecodeCell(b: bytes): (c: Cell)
    requires |b| == CELL_LEN
    ensures IsInt32(c.ch)
  {
    Cell(FromU32(ReadLE32(b[..4])), Rgb(b[4], b[5], b[6]), Rgb(b[7], b[8], b[9]), b[10])
  }

  lemma CellRoundTrip(c: Cell)
    requires IsInt32(c.ch)
    ensures DecodeCell(EncodeCell(c)) == c
  {
    var b := EncodeCell(c);
    assert b[..4] == LE32(ToU32(c.ch));
    ReadWrite32(ToU32(c.ch));
  }

  function EncodeCells(cells: seq<Cell>): (bs: bytes)
    requires CellsInRange(cells)
    ensures |bs| == CELL_LEN * |cells|
  {
    if cells == [] then []
    else EncodeCells(cells[..|cells| - 1]) + EncodeCell(cells[|cells| - 1])
  }

  /** Cell number `i` of a packed row-major grid. */
  function CellAt(b: bytes, i: nat): (c: bytes)
    requires CELL_LEN * (i + 1) <= |b|
    ensures |c| == CELL_LEN
  {
    b[CELL_LEN * i..CELL_LEN * i + CELL_LEN]
  }

  lemma {:induction false} CellsLayout(cells: seq<Cell>, i: nat)
    requires CellsInRange(cells) && i < |cells|
    ensures CellAt(EncodeCells(cells), i) == EncodeCell(cells[i])
    decreases |cells|
  {
    var n := |cells| - 1;
    var front := cells[..n];
    var b := EncodeCells(cells);
    assert b == EncodeCells(front) + EncodeCell(cells[n]);
    if i < n {
      CellsLayout(front, i);
      assert CELL_LEN * i + CELL_LEN <= |EncodeCells(front)|;
      assert CellAt(b, i) == CellAt(EncodeCells(front), i);
    }
  }

  function FrameHead(f: Frame): (bs: bytes)
    ensures |bs| == FRAME_HEADER_LEN
  {
    [MAGIC_FRAME, VERSION, if f.quit then 1 else 0, 0] + LE16(f.w) + LE16(f.h)
  }

  function EncodeFrame(f: Frame): (bs: bytes)
    requires CellsInRange(f.cells)
  {
    FrameHead(f) + EncodeCells(f.cells)
  }

  /** Number of cells of a frame the decoder accepts: right header, size limits and exact length. */
  function AcceptedFrame(b: bytes): (r: Option<(nat, nat)>)
    ensures r.Some? ==> 1 <= r.value.0 <= MAX_FRAME_WIDTH && 1 <= r.value.1 <= MAX_FRAME_HEIGHT
                        && |b| == FRAME_HEADER_LEN + CELL_LEN * (r.value.0 * r.value.1)
  {
    if |b| < FRAME_HEADER_LEN || b[0] != MAGIC_FRAME || b[1] != VERSION then None
    else
      var w, h := ReadLE16(b[4..6]), ReadLE16(b[6..8]);
      if w < 1 || w > MAX_FRAME_WIDTH || h < 1 || h > MAX_FRAME_HEIGHT then None
      else if |b| != FRAME_HEADER_LEN + CELL_LEN * (w * h) then None
      else Some((w, h))
  }

  function DecodeCells(b: bytes, n: nat): (cells: seq<Cell>)
    requires |b| == CELL_LEN * n
    ensures |cells| == n && CellsInRange(cells)
  {
    seq(n, i requires 0 <= i < n => DecodeCell(CellAt(b, i)))
  }

  function DecodeFrame(b: bytes): (r: Option<Frame>)
    ensures r.Some? ==> ValidFrame(r.value) && CellsInRange(r.value.cells)
  {
    match AcceptedFrame(b)
    case None => None
    case Some((w, h)) => Some(Frame(w, h, b[2] % 2 == 1, DecodeCells(b[FRAME_HEADER_LEN..], w * h)))
  }

  lemma CellsRoundTrip(cells: seq<Cell>)
    requires CellsInRange(cells)
    ensures DecodeCells(EncodeCells(cells), |cells|) == cells
  {
    var out := DecodeCells(EncodeCells(cells), |cells|);
    forall i | 0 <= i < |cells|
      ensures out[i] == cells[i]
    {
      CellsLayout(cells, i);
      CellRoundTrip(cells[i]);
    }
  }

  /** Every frame the host would accept survives the wire unchanged. */
  lemma FrameRoundTrip(f: Frame)
    requires ValidFrame(f) && CellsInRange(f.cells)
    ensures DecodeFrame(EncodeFrame(f)) == Some(f)
  {
    hide EncodeFrame, AcceptedFrame, EncodeCells, DecodeCells, DecodeFrame, CellsInRange;
    FrameSlices(f);
    FrameAccepted(f);
    DecodeAccepted(EncodeFrame(f), f.w, f.h);
    CellsRoundTrip(f.cells);
    assert |f.cells| == f.w * f.h;
    hide ValidFrame;
  }

  // ----- byte by byte

  /** Two bytes, least significant first. */
  function U16At(b: bytes, o: nat): (n: nat)
    requires o + 2 <= |b|
  {
    var lo: nat, hi: nat := b[o], b[o + 1];
    lo + 256 * hi
  }

  /** Four bytes, least significant first, in two's complement. */
  function Int32At(b: bytes, o: nat): (v: int)
    requires o + 4 <= |b|
  {
    var n := U16At(b, o) + 65536 * U16At(b, o + 2);
    if n >= 0x8000_0000 then n - 0x1_0000_0000 else n
  }

  lemma ReadsAt(b: bytes, o: nat)
    requires o + 4 <= |b|
    ensures ReadLE16(b[o..o + 2]) == U16At(b, o)
    ensures FromU32(ReadLE32(b[o..o + 4])) == Int32At(b, o)
  {
    assert b[o..o + 4][..2] == b[o..o + 2] && b[o..o + 4][2..] == b[o + 2..o + 4];
  }

  /** Which payloads are frames: a header of 8 bytes with the right tag, version and size, then 11 bytes a cell and no more. */
  lemma FrameAcceptedIff(b: bytes)
    ensures DecodeFrame(b).Some? <==>
      && |b| >= 8 && b[0] == 2 && b[1] == 4
      && 1 <= U16At(b, 4) <= 500 && 1 <= U16At(b, 6) <= 300 && |b| == 8 + 11 * (U16At(b, 4) * U16At(b, 6))
  {
    if |b| >= 8 {
      ReadsAt(b, 4);
      assert b[6..8][0] == b[6] && b[6..8][1] == b[7];
    }
    hide DecodeCells;
  }

  /** And what they say: the size, the quit bit, and every cell's character, two colours and decoration. */
  lemma FrameBytes(b: bytes, f: Frame, k: nat)
    requires DecodeFrame(b) == Some(f) && k < f.w * f.h
    ensures 8 + 11 * k + 11 <= |b| && |f.cells| == f.w * f.h
    ensures f.w == U16At(b, 4) && f.h == U16At(b, 6) && (f.quit <==> b[2] % 2 == 1)
    ensures var o := 8 + 11 * k;
      f.cells[k] == Cell(Int32At(b, o), Rgb(b[o + 4], b[o + 5], b[o + 6]), Rgb(b[o + 7], b[o + 8], b[o + 9]), b[o + 10])
  {
    FrameHeader(b, f);
    var cells, o := b[FRAME_HEADER_LEN..], 8 + 11 * k;
    assert 11 * (k + 1) <= 11 * (f.w * f.h);
    assert CellAt(cells, k) == b[o..o + 11];
    hide DecodeFrame;
    ReadsAt(b, o);
    assert b[o..o + 11][..4] == b[o..o + 4];
  }

  lemma FrameHeader(b: bytes, f: Frame)
    requires DecodeFrame(b) == Some(f)
    ensures |b| == 8 + 11 * (f.w * f.h) && |f.cells| == f.w * f.h
    ensures f.w == U16At(b, 4) && f.h == U16At(b, 6) && (f.quit <==> b[2] % 2 == 1)
    ensures f.cells == DecodeCells(b[FRAME_HEADER_LEN..], f.w * f.h)
  {
    ReadsAt(b, 4);
    assert b[6..8][0] == b[6] && b[6..8][1] == b[7];
    hide DecodeCells;
  }

  /** The first 13 bytes of an event: which field of which kind stands where. */
  ghost predicate HeadLayout(b: bytes, e: Event)
    requires |b| >= 13
  {
    var mouse := e.kind == 4;
    && b[0] == 1 && b[1] == 4 && b[2] == e.kind
    && b[3] == (if mouse then e.button else e.key) && b[8] == (if mouse then e.action else e.mods)
    && (if e.kind == 5 then U16At(b, 4) + 65536 * U16At(b, 6) == e.commandID else Int32At(b, 4) == e.ch)
    && U16At(b, 9) == (if mouse then e.mouseX else e.w) && U16At(b, 11) == (if mouse then e.mouseY else e.h)
  }

  lemma WordBytes(e: Event, b: bytes)
    requires EventInRange(e) && |b| >= 8 && b[4..8] == LE32(Word(e))
    ensures if e.kind == 5 then U16At(b, 4) + 65536 * U16At(b, 6) == e.commandID else Int32At(b, 4) == e.ch
  {
    hide LE32, ReadLE32;
    ReadWrite32(Word(e));
    ReadsAt(b, 4);
    Read32At(b, 4);
    hide U16At, Int32At;
  }

  lemma HeadBytes(e: Event)
    requires EventInRange(e)
    ensures HeadLayout(EventHead(e), e)
  {
    hide LE32, LE16, ReadLE16, U16At, Int32At, Word;
    var b := EventHead(e);
    assert b[4..8] == LE32(Word(e)) && b[9..11] == LE16(First16(e)) && b[11..13] == LE16(Second16(e));
    WordBytes(e, b);
    ReadWrite16(First16(e));
    ReadWrite16(Second16(e));
    Read16At(b, 9);
    Read16At(b, 11);
  }

  lemma EventBytes(e: Event)
    requires EventInRange(e)
    ensures |EncodeEvent(e)| >= 13 && (e.kind != 3 ==> |EncodeEvent(e)| == 13) && HeadLayout(EncodeEvent(e), e)
  {
    HeadBytes(e);
    assert e.kind != 3 ==> EventTail(e) == [];
    hide EventTail, EventHead;
    var b, head := EncodeEvent(e), EventHead(e);
    assert forall k :: 0 <= k < 13 ==> b[k] == head[k];
  }

  lemma Read16At(b: bytes, o: nat)
    requires o + 2 <= |b|
    ensures ReadLE16(b[o..o + 2]) == U16At(b, o)
  {}

  lemma Read32At(b: bytes, o: nat)
    requires o + 4 <= |b|
    ensures ReadLE32(b[o..o + 4]) == U16At(b, o) + 65536 * U16At(b, o + 2)
  {
    assert b[o..o + 4][..2] == b[o..o + 2] && b[o..o + 4][2..] == b[o + 2..o + 4];
  }

  /** A message carries its topic after a two-byte length and its data after a four-byte one. */
  lemma MessageBytes(e: Event)
    requires EventInRange(e) && e.kind == 3
    ensures var b, n := EncodeEvent(e), |e.topic|;
      && |b| == 13 + 2 + n + 4 + |e.data| && U16At(b, 13) == n && b[15..15 + n] == e.topic
      && U16At(b, 15 + n) + 65536 * U16At(b, 17 + n) == |e.data| && b[19 + n..] == e.data
  {
    var b, tail, n := EncodeEvent(e), EventTail(e), |e.topic|;
    hide EventHead;
    TailBytes(e.topic, e.data);
    hide EventTail;
    assert b == EventHead(e) + tail;
    assert b[13..] == tail;
    assert forall k :: 0 <= k < |tail| ==> b[13 + k] == tail[k];
    assert b[15..15 + n] == tail[2..2 + n] && b[19 + n..] == tail[6 + n..];
  }

  lemma TailBytes(topic: bytes, data: bytes)
    requires |topic| < U16 && |data| < U32
    ensures var t, n := EncodeKeyValue(topic, Prefixed32(data, [])), |topic|;
      && |t| == 2 + n + 4 + |data| && U16At(t, 0) == n && t[2..2 + n] == topic
      && U16At(t, 2 + n) + 65536 * U16At(t, 4 + n) == |data| && t[6 + n..] == data
  {
    hide LE32, LE16, ReadLE32, ReadLE16;
    var t, n := EncodeKeyValue(topic, Prefixed32(data, [])), |topic|;
    assert t[0..2] == LE16(n) && t[2 + n..6 + n] == LE32(|data|);
    ReadWrite16(n);
    ReadWrite32(|data|);
    Read16At(t, 0);
    Read32At(t, 2 + n);
  }

  /** The lengths of a message's two parts, as far as its bytes go, and nothing behind them. */
  ghost predicate MessageLengths(b: bytes)
    requires |b| >= 13
  {
    && |b| >= 15
    && var n := U16At(b, 13);
       && |b| >= 19 + n
       && |b| == 19 + n + U16At(b, 15 + n) + 65536 * U16At(b, 17 + n)
  }

  /** Which payloads are events: the right tag and version, thirteen bytes, and behind a message exactly its parts. */
  lemma EventAcceptedIff(b: bytes)
    ensures DecodeEvent(b).Some? <==> |b| >= 13 && b[0] == 1 && b[1] == 4 && if b[2] == 3 then MessageLengths(b) else |b| == 13
  {
    if |b| >= 13 {
      var tail := b[EVENT_LEN..];
      KindRead(b);
      TailAccepted(tail);
      assert forall k :: 0 <= k < |tail| ==> tail[k] == b[13 + k];
      hide ReadHead, DecodeKeyValue, TakePrefixed32;
    }
  }

  lemma KindRead(b: bytes)
    requires |b| >= 13
    ensures ReadHead(b[..EVENT_LEN]).kind == b[2]
  {}

  lemma TailAccepted(t: bytes)
    ensures (DecodeKeyValue(t).Some? && TakePrefixed32(DecodeKeyValue(t).value.1).Some? && TakePrefixed32(DecodeKeyValue(t).value.1).value.1 == []) <==>
      |t| >= 2 && |t| >= 6 + U16At(t, 0) && |t| == 6 + U16At(t, 0) + U16At(t, 2 + U16At(t, 0)) + 65536 * U16At(t, 4 + U16At(t, 0))
  {
    if |t| >= 2 {
      Read16At(t, 0);
      assert t[0..2] == t[..2];
      var n := U16At(t, 0);
      if |t| >= 6 + n {
        var rest := t[2 + n..];
        assert rest[..4] == t[2 + n..6 + n];
        Read32At(t, 2 + n);
      }
    }
    hide ReadLE16, ReadLE32;
  }

  lemma DecodeAccepted(b: bytes, w: nat, h: nat)
    requires AcceptedFrame(b) == Some((w, h))
    ensures |b| >= FRAME_HEADER_LEN && |b[FRAME_HEADER_LEN..]| == CELL_LEN * (w * h)
    ensures DecodeFrame(b) == Some(Frame(w, h, b[2] % 2 == 1, DecodeCells(b[FRAME_HEADER_LEN..], w * h)))
  {
    hide DecodeCells;
  }

  lemma {:induction false} FrameAccepted(f: Frame)
    requires ValidFrame(f) && CellsInRange(f.cells)
    ensures AcceptedFrame(EncodeFrame(f)) == Some((f.w, f.h))
  {
    hide EncodeFrame, FrameHead, LE16, ReadLE16, EncodeCells;
    FrameSlices(f);
    EncodedLength(f);
    SizeFields(f);
  }

  lemma SizeFields(f: Frame)
    requires ValidFrame(f)
    ensures ReadLE16(LE16(f.w)) == f.w && ReadLE16(LE16(f.h)) == f.h
    ensures 1 <= f.w <= MAX_FRAME_WIDTH && 1 <= f.h <= MAX_FRAME_HEIGHT
  {
    hide LE16, ReadLE16;
    ReadWrite16(f.w);
    ReadWrite16(f.h);
  }

  lemma EncodedLength(f: Frame)
    requires ValidFrame(f) && CellsInRange(f.cells)
    ensures |EncodeFrame(f)| == FRAME_HEADER_LEN + CELL_LEN * (f.w * f.h)
  {
    hide FrameHead, EncodeCells;
  }

  lemma FrameSlices(f: Frame)
    requires CellsInRange(f.cells)
    ensures var b := EncodeFrame(f);
      && |b| >= FRAME_HEADER_LEN && b[0] == MAGIC_FRAME && b[1] == VERSION && b[2] == (if f.quit then 1 else 0) && b[3] == 0
      && b[4..6] == LE16(f.w) && b[6..8] == LE16(f.h) && b[FRAME_HEADER_LEN..] == EncodeCells(f.cells)
  {
    hide LE16, EncodeCells;
  }

  // ----- encoding and decoding in place

  method Put(a: array<byte>, off: nat, bs: bytes)
    requires off + |bs| <= a.Length
    modifies a
    ensures a[..off + |bs|] == old(a[..off]) + bs
  {
    for i := 0 to |bs|
      invariant a[..off + i] == old(a[..off]) + bs[..i]
    {
      a[off + i] := bs[i];
    }
    assert bs[..|bs|] == bs;
  }

  /** `AppendEvent`: grows the buffer only when it is too small, and leaves no trace of what it held. */
  method AppendEvent(dst: array<byte>, e: Event) returns (b: array<byte>, size: nat)
    requires EventInRange(e)
    modifies dst
    ensures b == dst || fresh(b)
    ensures size <= b.Length && b[..size] == EncodeEvent(e)
  {
    var tail := if e.kind == KIND_MESSAGE then 2 + |e.topic| + 4 + |e.data| else 0;
    size := EVENT_LEN + tail;
    b := dst;
    if dst.Length < size {
      b := new byte[size];
    }
    Put(b, 0, [MAGIC_EVENT, VERSION, e.kind, if e.kind == KIND_MOUSE then e.button else e.key]);
    Put(b, 4, LE32(Word(e)));
    Put(b, 8, [if e.kind == KIND_MOUSE then e.action else e.mods]);
    Put(b, 9, LE16(First16(e)));
    Put(b, 11, LE16(Second16(e)));
    assert b[..13] == EventHead(e);
    if e.kind == KIND_MESSAGE {
      AppendTail(b, e);
    }
  }

  method AppendTail(b: array<byte>, e: Event)
    requires EventInRange(e) && e.kind == KIND_MESSAGE
    requires EVENT_LEN + 2 + |e.topic| + 4 + |e.data| <= b.Length && b[..EVENT_LEN] == EventHead(e)
    modifies b
    ensures b[..EVENT_LEN + 2 + |e.topic| + 4 + |e.data|] == EncodeEvent(e)
  {
    hide EventHead, LE16, LE32;
    var off := EVENT_LEN;
    Put(b, off, LE16(|e.topic|));
    off := off + 2;
    Put(b, off, e.topic);
    off := off + |e.topic|;
    Put(b, off, LE32(|e.data|));
    off := off + 4;
    Put(b, off, e.data);
    assert Prefixed32(e.data, []) == LE32(|e.data|) + e.data;
    assert b[..off + |e.data|] == EventHead(e) + (LE16(|e.topic|) + e.topic + (LE32(|e.data|) + e.data));
  }

  /** `AppendFrame`: same law for frames. */
  method AppendFrame(dst: array<byte>, f: Frame) returns (b: array<byte>, size: nat)
    requires CellsInRange(f.cells)
    modifies dst
    ensures b == dst || fresh(b)
    ensures size <= b.Length && b[..size] == EncodeFrame(f)
  {
    hide FrameHead, EncodeCell;
    size := FRAME_HEADER_LEN + |f.cells| * CELL_LEN;
    b := dst;
    if dst.Length < size {
      b := new byte[size];
    }
    Put(b, 0, FrameHead(f));
    var off := FRAME_HEADER_LEN;
    assert f.cells[..0] == [];
    for i := 0 to |f.cells|
      invariant off == FRAME_HEADER_LEN + CELL_LEN * i
      invariant b == dst || fresh(b)
      invariant size <= b.Length && CellsInRange(f.cells[..i])
      invariant b[..off] == FrameHead(f) + EncodeCells(f.cells[..i])
    {
      assert f.cells[..i + 1][..i] == f.cells[..i];
      Put(b, off, EncodeCell(f.cells[i]));
      off := off + CELL_LEN;
      assert b[..off] == FrameHead(f) + (EncodeCells(f.cells[..i]) + EncodeCell(f.cells[i]));
    }
    assert f.cells[..|f.cells|] == f.cells;
  }

  /** `AppendDecodeFrame`: the cells land in the reused array, which grows only when it must. */
  method AppendDecodeFrame(dst: array<Cell>, b: bytes) returns (f: Option<Frame>, cells: array<Cell>)
    modifies dst
    ensures f == DecodeFrame(b)
    ensures cells == dst || fresh(cells)
    ensures f.Some? ==> |f.value.cells| <= cells.Length && cells[..|f.value.cells|] == f.value.cells
  {
    cells := dst;
    var accepted := AcceptedFrame(b);
    if accepted.None? {
      return None, dst;
    }
    var (w, h) := accepted.value;
    var n := w * h;
    if dst.Length < n {
      cells := new Cell[n](_ => ZERO_CELL);
    }
    var body := b[FRAME_HEADER_LEN..];
    ghost var want := DecodeCells(body, n);
    for i := 0 to n
      invariant n <= cells.Length && (cells == dst || fresh(cells))
      invariant cells[..i] == want[..i]
    {
      assert want[i] == DecodeCell(CellAt(body, i));
      cells[i] := DecodeCell(CellAt(body, i));
    }
    assert want[..n] == want;
    f := Some(Frame(w, h, b[2] % 2 == 1, cells[..n]));
  }
}
