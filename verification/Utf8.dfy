/**
 UTF-8 as section 4 of RFC 3629 defines it: the byte-sequence grammar, and on top
 of it the decoder operations the runner uses (`DecodeRune`, `FullRune`,
 `AppendRune`).
 */
module Utf8 {
  import opened Bytes

  const RUNE_ERROR := 0xFFFD

  /** A Unicode scalar value: Go's `utf8.ValidRune`. */
  predicate ValidRune(r: int) {
    0 <= r < 0xD800 || 0xDFFF < r <= 0x10FFFF
  }

  /** Number of bytes announced by a lead byte; 0 for a byte that starts nothing. */
  function Width(lead: byte): (n: nat)
    ensures n <= 4
  {
    if lead <= 0x7F then 1
    else if 0xC2 <= lead <= 0xDF then 2
    else if 0xE0 <= lead <= 0xEF then 3
    else if 0xF0 <= lead <= 0xF4 then 4
    else 0
  }

  predicate IsTail(b: byte) {
    0x80 <= b <= 0xBF
  }

  /** The second byte allowed after a lead byte (no overlong form, no surrogate, nothing above U+10FFFF). */
  predicate SecondOk(lead: byte, b: byte) {
    if lead == 0xE0 then 0xA0 <= b <= 0xBF
    else if lead == 0xED then 0x80 <= b <= 0x9F
    else if lead == 0xF0 then 0x90 <= b <= 0xBF
    else if lead == 0xF4 then 0x80 <= b <= 0x8F
    else IsTail(b)
  }

  /** The bytes of `s` fit the grammar as far as they go. */
  predicate Fits(s: bytes) {
    && 0 < |s| <= Width(s[0])
    && (|s| > 1 ==> SecondOk(s[0], s[1]))
    && (|s| > 2 ==> IsTail(s[2]))
    && (|s| > 3 ==> IsTail(s[3]))
  }

  /** `s` is the encoding of exactly one character (`UTF8-char` of the grammar). */
  predicate IsChar(s: bytes) {
    Fits(s) && |s| == Width(s[0])
  }

  /** Length of the character at the front of `s`, or 0 when `s` does not start with one. */
  function CharLen(s: bytes): (n: nat)
    ensures n <= |s| && n <= 4
    ensures n > 0 <==> exists k :: 0 <= k <= |s| && IsChar(s[..k])
    ensures n > 0 ==> IsChar(s[..n])
  {
    if s == [] then 0
    else
      var w := Width(s[0]);
      if w <= |s| && IsChar(s[..w]) then w else 0
  }

  function Scalar(s: bytes): (r: int)
    requires IsChar(s)
    ensures ValidRune(r)
  {
    var b0: int := s[0];
    if |s| == 1 then b0
    else
      var b1: int := s[1];
      if |s| == 2 then (b0 - 0xC0) * 0x40 + (b1 - 0x80)
      else
        var b2: int := s[2];
        if |s| == 3 then (b0 - 0xE0) * 0x1000 + (b1 - 0x80) * 0x40 + (b2 - 0x80)
        else
          var b3: int := s[3];
          (b0 - 0xF0) * 0x4_0000 + (b1 - 0x80) * 0x1000 + (b2 - 0x80) * 0x40 + (b3 - 0x80)
  }

  /** `utf8.DecodeRune` on a non-empty slice. */
  function DecodeRune(s: bytes): (p: (int, nat))
    requires s != []
    ensures 0 < p.1 <= |s|
    ensures p.0 == RUNE_ERROR && p.1 == 1 <==> CharLen(s) == 0
    ensures CharLen(s) > 0 ==> p.1 == CharLen(s) && p.0 == Scalar(s[..p.1])
  {
    var n := CharLen(s);
    if n == 0 then (RUNE_ERROR, 1) else (Scalar(s[..n]), n)
  }

  /** `utf8.FullRune`: false only for the empty slice and for a truncated character. */
  predicate FullRune(s: bytes) {
    s != [] &&
    (|s| >= Width(s[0])
     || (|s| > 1 && !SecondOk(s[0], s[1]))
     || (|s| > 2 && !IsTail(s[2])))
  }

  /** Bytes that complete a truncated character. */
  function Completion(s: bytes): (t: bytes)
    requires s != [] && |s| < Width(s[0])
    ensures |s| + |t| == Width(s[0])
  {
    var second: byte := if s[0] == 0xE0 then 0xA0 else if s[0] == 0xF0 then 0x90 else 0x80;
    if |s| == 1 then [second, 0x80, 0x80][..Width(s[0]) - 1]
    else if |s| == 2 then [0x80, 0x80][..Width(s[0]) - 2]
    else [0x80]
  }

  lemma CompletionCompletes(s: bytes)
    requires s != [] && !FullRune(s)
    ensures Completion(s) != [] && IsChar(s + Completion(s))
  {
    var w, all := Width(s[0]), s + Completion(s);
    assert |all| == w && all[0] == s[0];
    assert |s| > 1 ==> all[1] == s[1];
    assert |s| > 2 ==> all[2] == s[2];
    assert w > 1 ==> SecondOk(all[0], all[1]);
    assert w > 2 ==> IsTail(all[2]);
    assert w > 3 ==> IsTail(all[3]);
  }

  lemma CompletableIsTruncated(s: bytes, t: bytes)
    requires s != [] && t != [] && IsChar(s + t)
    ensures !FullRune(s)
  {
    var all := s + t;
    assert all[0] == s[0];
    assert |s| > 1 ==> all[1] == s[1];
    assert |s| > 2 ==> all[2] == s[2];
  }

  /** `FullRune` rejects a non-empty slice exactly when some continuation completes it to a character. */
  lemma FullRuneMeaning(s: bytes)
    requires s != []
    ensures !FullRune(s) <==> exists t: bytes :: t != [] && IsChar(s + t)
  {
    hide IsChar;
    if !FullRune(s) {
      CompletionCompletes(s);
    } else {
      forall t: bytes | t != [] ensures !IsChar(s + t) {
        if IsChar(s + t) {
          CompletableIsTruncated(s, t);
        }
      }
    }
  }

  /** What follows a slice can neither create nor destroy the character in front of it, unless it was truncated. */
  lemma CharLenExtends(s: bytes, more: bytes)
    requires s != []
    ensures CharLen(s) > 0 ==> CharLen(s + more) == CharLen(s)
    ensures CharLen(s) == 0 && FullRune(s) ==> CharLen(s + more) == 0 && FullRune(s + more)
  {
    var w := Width(s[0]);
    assert (s + more)[0] == s[0];
    assert |s| > 1 ==> (s + more)[1] == s[1];
    assert |s| > 2 ==> (s + more)[2] == s[2];
    if w <= |s| {
      assert (s + more)[..w] == s[..w];
    }
  }

  /** The encoding `utf8.AppendRune` appends; anything that is not a scalar value becomes U+FFFD. */
  function Encode(r: int): (s: bytes)
    ensures 0 < |s| <= 4
  {
    if 0 <= r <= 0x7F then [r]
    else if 0x80 <= r <= 0x7FF then [0xC0 + r / 0x40, 0x80 + r % 0x40]
    else if 0x800 <= r <= 0xFFFF && ValidRune(r) then
      [0xE0 + r / 0x1000, 0x80 + r / 0x40 % 0x40, 0x80 + r % 0x40]
    else if 0x1_0000 <= r <= 0x10_FFFF then
      [0xF0 + r / 0x4_0000, 0x80 + r / 0x1000 % 0x40, 0x80 + r / 0x40 % 0x40, 0x80 + r % 0x40]
    else [0xEF, 0xBF, 0xBD]
  }

  /** Encoding a scalar value yields one character that decodes to it; the leading byte tells ASCII apart. */
  lemma EncodeIsChar(r: int)
    ensures IsChar(Encode(r))
    ensures ValidRune(r) ==> Scalar(Encode(r)) == r
    ensures Encode(r)[0] < 0x80 <==> 0 <= r < 0x80
  {
    if 0x80 <= r <= 0x7FF {
      assert r == 0x40 * (r / 0x40) + r % 0x40;
    } else if 0x800 <= r <= 0xFFFF && ValidRune(r) {
      EncodeThree(r / 0x1000, r / 0x40 % 0x40, r % 0x40, r);
    } else if 0x1_0000 <= r <= 0x10_FFFF {
      EncodeFour(r / 0x4_0000, r / 0x1000 % 0x40, r / 0x40 % 0x40, r % 0x40, r);
    }
  }

  lemma EncodeThree(z: nat, y: nat, x: nat, r: nat)
    requires 0x800 <= r <= 0xFFFF && ValidRune(r)
    requires z == r / 0x1000 && y == r / 0x40 % 0x40 && x == r % 0x40
    ensures IsChar([0xE0 + z, 0x80 + y, 0x80 + x])
    ensures z * 0x1000 + y * 0x40 + x == r
  {
    var q := r / 0x40;
    assert r == 0x40 * q + x;
    assert q == 0x40 * (q / 0x40) + y;
    assert q / 0x40 == z;
  }

  lemma EncodeFour(u: nat, z: nat, y: nat, x: nat, r: nat)
    requires 0x1_0000 <= r <= 0x10_FFFF
    requires u == r / 0x4_0000 && z == r / 0x1000 % 0x40 && y == r / 0x40 % 0x40 && x == r % 0x40
    ensures IsChar([0xF0 + u, 0x80 + z, 0x80 + y, 0x80 + x])
    ensures u * 0x4_0000 + z * 0x1000 + y * 0x40 + x == r
  {
    var q := r / 0x40;
    var p := r / 0x1000;
    assert r == 0x40 * q + x;
    assert q == 0x40 * (q / 0x40) + y;
    assert q / 0x40 == p;
    assert p == 0x40 * (p / 0x40) + z;
    assert p / 0x40 == u;
  }

  /** Well-formed UTF-8 text: a concatenation of encoded characters. */
  predicate IsText(s: bytes)
    decreases |s|
  {
    s == [] || (CharLen(s) > 0 && IsText(s[CharLen(s)..]))
  }
}
