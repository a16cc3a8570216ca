/**
 The streaming control-character filter between a CLI guest and the viewer's
 terminal. The specification filters a whole byte string at once; the filter
 object sees the same bytes cut into arbitrary writes and carries an incomplete
 trailing character from one write to the next.
 */
module ControlFilter {
  import opened Bytes
  import opened Utf8

  /** Characters that could drive the viewer's terminal: C0 except tab and newline, DEL, C1. */
  predicate DropRune(r: int) {
    if r < 0x20 then r != 9 && r != 10
    else r == 0x7F || 0x80 <= r <= 0x9F
  }

  /** What one pass over the bytes forwards, and the truncated character it leaves over. */
  function Filter(data: bytes): (r: (bytes, bytes))
    decreases |data|
  {
    if data == [] then ([], [])
    else
      var (c, size) := DecodeRune(data);
      if c == RUNE_ERROR && size == 1 then
        if FullRune(data) then Filter(data[1..]) else ([], data)
      else
        var rest := Filter(data[size..]);
        (if DropRune(c) then rest.0 else data[..size] + rest.0, rest.1)
  }

  /** Filtering two pieces in turn, handing the leftover across, is filtering their concatenation. */
  lemma {:induction false} FilterSplits(a: bytes, b: bytes)
    ensures Filter(a + b) == (Filter(a).0 + Filter(Filter(a).1 + b).0, Filter(Filter(a).1 + b).1)
    decreases |a|
  {
    if a == [] {
      assert a + b == b;
    } else {
      CharLenExtends(a, b);
      var (c, size) := DecodeRune(a);
      if CharLen(a) > 0 {
        assert (a + b)[..size] == a[..size];
        assert (a + b)[size..] == a[size..] + b;
        FilterSplits(a[size..], b);
        var rest := Filter(a[size..]);
        assert (a[..size] + rest.0) + Filter(rest.1 + b).0 == a[..size] + (rest.0 + Filter(rest.1 + b).0);
      } else if FullRune(a) {
        assert (a + b)[1..] == a[1..] + b;
        FilterSplits(a[1..], b);
      } else {
        assert [] + Filter(a + b).0 == Filter(a + b).0;
      }
    }
  }

  /** Several writes in a row, starting from a carried tail. */
  function FilterAll(tail: bytes, writes: seq<bytes>): (r: (bytes, bytes))
    decreases |writes|
  {
    if writes == [] then ([], tail)
    else
      var first := Filter(tail + writes[0]);
      var rest := FilterAll(first.1, writes[1..]);
      (first.0 + rest.0, rest.1)
  }

  function Concat(parts: seq<bytes>): (s: bytes) {
    if parts == [] then [] else parts[0] + Concat(parts[1..])
  }

  /** A tail the filter may hold: empty or one truncated character, so at most three bytes. */
  predicate CarriedTail(t: bytes) {
    t == [] || (!FullRune(t) && CharLen(t) == 0)
  }

  lemma {:induction false} FilterTail(data: bytes)
    ensures CarriedTail(Filter(data).1)
    ensures |Filter(data).1| < 4
    decreases |data|
  {
    if data != [] {
      var (c, size) := DecodeRune(data);
      if CharLen(data) > 0 {
        FilterTail(data[size..]);
      } else if FullRune(data) {
        FilterTail(data[1..]);
      }
    }
  }

  lemma FilterOfTail(t: bytes)
    requires CarriedTail(t)
    ensures Filter(t) == ([], t)
  {
  }

  /**
   However the stream is cut into writes, the output and the carried tail are
   those of a single write of the whole stream.
   */
  lemma {:induction false} SplitInvariance(tail: bytes, writes: seq<bytes>)
    requires CarriedTail(tail)
    ensures FilterAll(tail, writes) == Filter(tail + Concat(writes))
    decreases |writes|
  {
    hide Filter;
    if writes == [] {
      assert tail + Concat(writes) == tail;
      FilterOfTail(tail);
    } else {
      var head, rest := tail + writes[0], Concat(writes[1..]);
      var first := Filter(head);
      FilterTail(head);
      calc {
        FilterAll(tail, writes);
        (first.0 + FilterAll(first.1, writes[1..]).0, FilterAll(first.1, writes[1..]).1);
        { SplitInvariance(first.1, writes[1..]); }
        (first.0 + Filter(first.1 + rest).0, Filter(first.1 + rest).1);
        { FilterSplits(head, rest); }
        Filter(head + rest);
        { assert tail + Concat(writes) == head + rest; }
        Filter(tail + Concat(writes));
      }
    }
  }

  /** Text made only of characters the filter lets through. */
  predicate SafeText(s: bytes)
    decreases |s|
  {
    s == [] || (CharLen(s) > 0 && !DropRune(Scalar(s[..CharLen(s)])) && SafeText(s[CharLen(s)..]))
  }

  lemma SafeTextPrepend(c: bytes, s: bytes)
    requires IsChar(c) && !DropRune(Scalar(c)) && SafeText(s)
    ensures SafeText(c + s)
  {
    assert c[..|c|] == c;
    assert CharLen(c) == |c|;
    CharLenExtends(c, s);
    assert (c + s)[..|c|] == c && (c + s)[|c|..] == s;
  }

  /** Whatever the guest writes, only safe, well-formed UTF-8 reaches the viewer. */
  lemma {:induction false} OutputIsSafe(data: bytes)
    ensures SafeText(Filter(data).0)
    decreases |data|
  {
    if data != [] {
      var (c, size) := DecodeRune(data);
      if CharLen(data) > 0 {
        OutputIsSafe(data[size..]);
        if !DropRune(c) {
          SafeTextPrepend(data[..size], Filter(data[size..]).0);
        }
      } else if FullRune(data) {
        OutputIsSafe(data[1..]);
      }
    }
  }

  lemma {:induction false} SafeTextIsText(s: bytes)
    requires SafeText(s)
    ensures IsText(s)
    ensures forall i :: 0 <= i < |s| && s[i] < 0x20 ==> s[i] == 9 || s[i] == 10
    ensures forall i :: 0 <= i < |s| ==> s[i] != 0x7F
    decreases |s|
  {
    if s != [] {
      var n := CharLen(s);
      var head := s[..n];
      SafeTextIsText(s[n..]);
      assert IsChar(head);
      forall i | 0 <= i < |s|
        ensures s[i] < 0x20 ==> s[i] == 9 || s[i] == 10
        ensures s[i] != 0x7F
      {
        if i < n {
          assert s[i] == head[i];
          if n == 1 {
            assert Scalar(head) == s[0];
          }
        } else {
          assert s[i] == s[n..][i - n];
        }
      }
    }
  }

  /** Safe text passes through untouched: the filter removes nothing it need not remove. */
  lemma {:induction false} FilterKeepsSafeText(s: bytes)
    requires SafeText(s)
    ensures Filter(s) == (s, [])
    decreases |s|
  {
    if s != [] {
      var n := CharLen(s);
      FilterKeepsSafeText(s[n..]);
      assert s[..n] + s[n..] == s;
    }
  }

  // ----- in code points and bytes

  /** No C1 control reaches the viewer, the 8-bit CSI included: 0xC2 is never followed by 0x80 to 0x9F. */
  lemma {:induction false} SafeTextHasNoC1(s: bytes)
    requires SafeText(s)
    ensures forall i :: 0 <= i < |s| - 1 && s[i] == 0xC2 ==> s[i + 1] >= 0xA0
    decreases |s|
  {
    if s != [] {
      var n := CharLen(s);
      var head := s[..n];
      SafeTextHasNoC1(s[n..]);
      assert IsChar(head);
      forall i | 0 <= i < |s| - 1 && s[i] == 0xC2 ensures s[i + 1] >= 0xA0 {
        if i < n {
          assert head[i] == 0xC2;
          LeadIsFirst(head, i);
          assert Scalar(head) == (head[0] - 0xC0) * 0x40 + (head[1] - 0x80);
        } else {
          assert s[n..][i - n] == s[i] && s[n..][i + 1 - n] == s[i + 1];
        }
      }
    }
  }

  lemma LeadIsFirst(c: bytes, i: nat)
    requires IsChar(c) && i < |c| && c[i] == 0xC2
    ensures i == 0 && |c| == 2
  {}

  lemma OutputHasNoC1(data: bytes)
    ensures var out := Filter(data).0; forall i :: 0 <= i < |out| - 1 && out[i] == 0xC2 ==> out[i + 1] >= 0xA0
  {
    OutputIsSafe(data);
    SafeTextHasNoC1(Filter(data).0);
  }

  /** Tab, newline, printable ASCII, and everything past the C1 block. */
  predicate Forwarded(r: int) {
    r == 9 || r == 10 || 0x20 <= r <= 0x7E || r >= 0xA0
  }

  /** One scalar value passes whole if it is among these, and otherwise leaves nothing. */
  lemma FilterOfRune(r: int)
    requires ValidRune(r)
    ensures Filter(Encode(r)) == (if Forwarded(r) then Encode(r) else [], [])
  {
    var e := Encode(r);
    EncodeIsChar(r);
    hide Encode, Scalar;
    assert e[..|e|] == e && e[|e|..] == [];
    assert CharLen(e) == |e|;
    assert DecodeRune(e) == (r, |e|);
    assert Filter([]) == ([], []);
    assert e + [] == e;
  }

  function EncodeAll(rs: seq<int>): (s: bytes) {
    if rs == [] then [] else Encode(rs[0]) + EncodeAll(rs[1..])
  }

  function ForwardedOf(rs: seq<int>): (r: seq<int>) {
    if rs == [] then [] else (if Forwarded(rs[0]) then [rs[0]] else []) + ForwardedOf(rs[1..])
  }

  /** Of any text, exactly those scalar values are forwarded, in order. */
  lemma {:induction false} FilterOfText(rs: seq<int>)
    requires forall i :: 0 <= i < |rs| ==> ValidRune(rs[i])
    ensures Filter(EncodeAll(rs)) == (EncodeAll(ForwardedOf(rs)), [])
    decreases |rs|
  {
    hide Filter, Encode;
    if rs == [] {
      FilterOfTail([]);
    } else {
      FilterOfRune(rs[0]);
      FilterOfText(rs[1..]);
      FilterSplits(Encode(rs[0]), EncodeAll(rs[1..]));
      assert [] + EncodeAll(rs[1..]) == EncodeAll(rs[1..]);
      if Forwarded(rs[0]) {
        assert ([rs[0]] + ForwardedOf(rs[1..]))[1..] == ForwardedOf(rs[1..]);
      } else {
        assert [] + ForwardedOf(rs[1..]) == ForwardedOf(rs[1..]);
        assert [] + EncodeAll(ForwardedOf(rs[1..])) == EncodeAll(ForwardedOf(rs[1..]));
      }
    }
  }

  /** A byte that neither begins nor continues a character is dropped alone. */
  lemma FilterOfStray(b: byte, rest: bytes)
    requires 0x80 <= b <= 0xC1 || b >= 0xF5
    ensures Filter([b] + rest) == Filter(rest)
  {
    assert ([b] + rest)[1..] == rest;
  }

  /** The writer the runner wraps around a guest's standard streams. */
  class Writer {
    var buf: bytes

    ghost predicate Valid()
      reads this
    {
      CarriedTail(buf)
    }

    constructor ()
      ensures Valid() && buf == []
    {
      buf := [];
    }

    /**
     One `Write`. `sinkOk` says whether the wrapped writer accepts the bytes
     handed to it; a refused write still leaves the tail advanced.
     */
    method Write(p: bytes, sinkOk: bool) returns (n: nat, err: bool, forwarded: bytes)
      requires Valid()
      modifies this
      ensures Valid() && |buf| < 4
      ensures (forwarded, buf) == Filter(old(buf) + p)
      ensures err <==> forwarded != [] && !sinkOk
      ensures n == if err then 0 else |p|
    {
      var data := p;
      if |buf| > 0 {
        data := buf + p;
        buf := [];
      }
      assert data == old(buf) + p;
      ghost var whole := data;
      FilterTail(whole);
      var out: bytes := [];
      while |data| > 0
        invariant buf == []
        invariant Filter(whole).0 == out + Filter(data).0
        invariant Filter(whole).1 == Filter(data).1
        decreases |data|
      {
        var (r, size) := DecodeRune(data);
        if r == RUNE_ERROR && size == 1 {
          if !FullRune(data) {
            buf := data;
            break;
          }
          data := data[1..];
          continue;
        }
        if !DropRune(r) {
          assert out + (data[..size] + Filter(data[size..]).0) == (out + data[..size]) + Filter(data[size..]).0;
          out := out + data[..size];
        }
        data := data[size..];
      }
      assert out + [] == out;
      forwarded := out;
      err := |out| > 0 && !sinkOk;
      n := if err then 0 else |p|;
    }
  }
}
