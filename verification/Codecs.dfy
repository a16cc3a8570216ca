/**
 Payload codecs: session start and end, KV requests, key lists, identities, input
 events and frames. Each decoder is a partial inverse of its encoder; where a
 field is narrower on the wire the law states what survives.
 */
module Codecs {
  import opened Results
  import opened Bytes
  import opened Abi

  // ----- two's complement

  predicate IsInt32(v: int) {
    -0x8000_0000 <= v < 0x8000_0000
  }

  predicate IsInt64(v: int) {
    -0x8000_0000_0000_0000 <= v < 0x8000_0000_0000_0000
  }

  function ToU32(v: int): (n: nat)
    requires IsInt32(v)
    ensures n < U32
  {
    if v < 0 then v + U32 else v
  }

  function FromU32(n: nat): (v: int)
    requires n < U32
    ensures IsInt32(v) && ToU32(v) == n
  {
    if n >= 0x8000_0000 then n - U32 else n
  }

  function ToU64(v: int): (n: nat)
    requires IsInt64(v)
    ensures n < U64
  {
    if v < 0 then v + U64 else v
  }

  function FromU64(n: nat): (v: int)
    requires n < U64
    ensures IsInt64(v) && ToU64(v) == n
  {
    if n >= 0x8000_0000_0000_0000 then n - U64 else n
  }

  // ----- length-prefixed items

  /** `[u32 length][bytes]` in front of `rest`. */
  function Prefixed32(item: bytes, rest: bytes): (bs: bytes) {
    LE32(|item|) + item + rest
  }

  function TakePrefixed32(b: bytes): (r: Option<(bytes, bytes)>) {
    if |b| < 4 then None
    else
      var n := ReadLE32(b[..4]);
      if |b| < 4 + n then None else Some((b[4..4 + n], b[4 + n..]))
  }

  lemma TakeAfterPrefix32(item: bytes, rest: bytes)
    requires |item| < U32
    ensures TakePrefixed32(Prefixed32(item, rest)) == Some((item, rest))
  {
    hide LE32, ReadLE32;
    var b := Prefixed32(item, rest);
    var n := |item|;
    assert b[..4] == LE32(n);
    ReadWrite32(n);
    assert b[4..4 + n] == item && b[4 + n..] == rest;
  }

  // ----- session start

  datatype Limits = Limits(memoryPages: nat, frameTimeout: int, sessionTimeout: int, maxEvents: nat, maxFrames: nat)

  datatype Start = Start(limits: Limits, cli: bool, caps: byte, args: seq<bytes>, wasm: bytes)

  predicate StartInRange(s: Start) {
    && s.limits.memoryPages < U32 && s.limits.maxEvents < U32 && s.limits.maxFrames < U32
    && IsInt64(s.limits.frameTimeout) && IsInt64(s.limits.sessionTimeout)
    && |s.args| < U32 && forall i :: 0 <= i < |s.args| ==> |s.args[i]| < U32
  }

  function EncodeArgs(args: seq<bytes>, wasm: bytes): (bs: bytes)
    ensures |bs| >= 4 * |args| + |wasm|
  {
    if args == [] then wasm else Prefixed32(args[0], EncodeArgs(args[1..], wasm))
  }

  function DecodeArgs(b: bytes, argc: nat): (r: Option<(seq<bytes>, bytes)>) {
    if argc == 0 then Some(([], b))
    else match TakePrefixed32(b)
      case None => None
      case Some((arg, rest)) =>
        match DecodeArgs(rest, argc - 1)
        case None => None
        case Some((args, wasm)) => Some(([arg] + args, wasm))
  }

  function EncodeStart(s: Start): (bs: bytes)
    requires StartInRange(s)
  {
    [if s.cli then 1 else 0]
    + LE32(s.limits.memoryPages) + LE64(ToU64(s.limits.frameTimeout)) + LE64(ToU64(s.limits.sessionTimeout))
    + LE32(s.limits.maxEvents) + LE32(s.limits.maxFrames)
    + [s.caps] + LE32(|s.args|)
    + EncodeArgs(s.args, s.wasm)
  }

  function ReadLimits(b: bytes): (l: Limits)
    requires |b| >= 34
  {
    Limits(ReadLE32(b[1..5]), FromU64(ReadLE64(b[5..13])), FromU64(ReadLE64(b[13..21])),
           ReadLE32(b[21..25]), ReadLE32(b[25..29]))
  }

  function DecodeStart(b: bytes): (r: Option<Start>) {
    if |b| < 34 || b[0] > 1 then None
    else
      var limits := ReadLimits(b);
      var argc := ReadLE32(b[30..34]);
      if argc > |b[34..]| / 4 then None
      else match DecodeArgs(b[34..], argc)
        case None => None
        case Some((args, wasm)) => Some(Start(limits, b[0] == 1, b[29], args, wasm))
  }

  lemma {:induction false} ArgsRoundTrip(args: seq<bytes>, wasm: bytes)
    requires forall i :: 0 <= i < |args| ==> |args[i]| < U32
    ensures DecodeArgs(EncodeArgs(args, wasm), |args|) == Some((args, wasm))
    decreases |args|
  {
    if args != [] {
      TakeAfterPrefix32(args[0], EncodeArgs(args[1..], wasm));
      ArgsRoundTrip(args[1..], wasm);
      assert [args[0]] + args[1..] == args;
    }
  }

  /** Where the fields of a start payload lie. */
  ghost predicate StartLayout(s: Start, b: bytes)
    requires StartInRange(s)
  {
    && |b| == 34 + |EncodeArgs(s.args, s.wasm)|
    && b[0] == (if s.cli then 1 else 0) && b[29] == s.caps
    && b[1..5] == LE32(s.limits.memoryPages)
    && b[5..13] == LE64(ToU64(s.limits.frameTimeout)) && b[13..21] == LE64(ToU64(s.limits.sessionTimeout))
    && b[21..25] == LE32(s.limits.maxEvents) && b[25..29] == LE32(s.limits.maxFrames)
    && b[30..34] == LE32(|s.args|) && b[34..] == EncodeArgs(s.args, s.wasm)
  }

  lemma EncodeStartLayout(s: Start)
    requires StartInRange(s)
    ensures StartLayout(s, EncodeStart(s))
  {
  }

  lemma LimitsRoundTrip(s: Start, b: bytes)
    requires StartInRange(s) && StartLayout(s, b)
    ensures ReadLimits(b) == s.limits
  {
    hide LE32, LE64, ReadLE32, ReadLE64;
    var l := s.limits;
    assert ReadLE32(b[1..5]) == l.memoryPages by { ReadWrite32(l.memoryPages); }
    assert FromU64(ReadLE64(b[5..13])) == l.frameTimeout by { ReadWrite64(ToU64(l.frameTimeout)); }
    assert FromU64(ReadLE64(b[13..21])) == l.sessionTimeout by { ReadWrite64(ToU64(l.sessionTimeout)); }
    assert ReadLE32(b[21..25]) == l.maxEvents by { ReadWrite32(l.maxEvents); }
    assert ReadLE32(b[25..29]) == l.maxFrames by { ReadWrite32(l.maxFrames); }
  }

  lemma DecodeLaidOut(s: Start, b: bytes)
    requires StartInRange(s) && StartLayout(s, b)
    ensures DecodeStart(b) == Some(s)
  {
    hide LE32, LE64, ReadLE32, ReadLE64, ReadLimits;
    LimitsRoundTrip(s, b);
    assert ReadLE32(b[30..34]) == |s.args| by { ReadWrite32(|s.args|); }
    assert |s.args| <= |b[34..]| / 4;
    ArgsRoundTrip(s.args, s.wasm);
  }

  /** The worker decodes exactly the session the parent described. */
  lemma StartRoundTrip(s: Start)
    requires StartInRange(s)
    ensures DecodeStart(EncodeStart(s)) == Some(s)
  {
    EncodeStartLayout(s);
    DecodeLaidOut(s, EncodeStart(s));
  }

  // ----- session end

  function EncodeDone(err: bytes, goodbye: bytes, logs: bytes): (bs: bytes) {
    Prefixed32(err, Prefixed32(goodbye, logs))
  }

  function DecodeDone(b: bytes): (r: Option<(bytes, bytes, bytes)>) {
    match TakePrefixed32(b)
    case None => None
    case Some((err, rest)) =>
      match TakePrefixed32(rest)
      case None => None
      case Some((goodbye, logs)) => Some((err, goodbye, logs))
  }

  lemma DoneRoundTrip(err: bytes, goodbye: bytes, logs: bytes)
    requires |err| < U32 && |goodbye| < U32
    ensures DecodeDone(EncodeDone(err, goodbye, logs)) == Some((err, goodbye, logs))
  {
    TakeAfterPrefix32(err, Prefixed32(goodbye, logs));
    TakeAfterPrefix32(goodbye, logs);
  }

  // ----- key/value requests

  function EncodeKeyValue(key: bytes, value: bytes): (bs: bytes) {
    LE16(|key|) + key + value
  }

  function DecodeKeyValue(b: bytes): (r: Option<(bytes, bytes)>) {
    if |b| < 2 then None
    else
      var n := ReadLE16(b[..2]);
      if |b| < 2 + n then None else Some((b[2..2 + n], b[2 + n..]))
  }

  lemma KeyValueRoundTrip(key: bytes, value: bytes)
    requires |key| < U16
    ensures DecodeKeyValue(EncodeKeyValue(key, value)) == Some((key, value))
  {
    var b := EncodeKeyValue(key, value);
    assert b[..2] == LE16(|key|);
    ReadWrite16(|key|);
    assert b[2..2 + |key|] == key && b[2 + |key|..] == value;
  }

  function EncodeListRequest(prefix: bytes, limit: nat): (bs: bytes) {
    LE16(limit) + prefix
  }

  function DecodeListRequest(b: bytes): (r: Option<(bytes, nat)>) {
    if |b| < 2 then None else Some((b[2..], ReadLE16(b[..2])))
  }

  lemma ListRequestRoundTrip(prefix: bytes, limit: nat)
    requires limit < U16
    ensures DecodeListRequest(EncodeListRequest(prefix, limit)) == Some((prefix, limit))
  {
    var b := EncodeListRequest(prefix, limit);
    assert b[..2] == LE16(limit) && b[2..] == prefix;
    ReadWrite16(limit);
  }

  const HASH_SIZE := 32

  function EncodeCas(key: bytes, expected: bytes, value: bytes): (bs: bytes) {
    LE16(|key|) + key + expected + value
  }

  function DecodeCas(b: bytes): (r: Option<(bytes, bytes, bytes)>) {
    if |b| < 2 then None
    else
      var n := ReadLE16(b[..2]);
      if n == 0 || |b| < 2 + n + HASH_SIZE then None
      else Some((b[2..2 + n], b[2 + n..2 + n + HASH_SIZE], b[2 + n + HASH_SIZE..]))
  }

  lemma CasRoundTrip(key: bytes, expected: bytes, value: bytes)
    requires 0 < |key| < U16 && |expected| == HASH_SIZE
    ensures DecodeCas(EncodeCas(key, expected, value)) == Some((key, expected, value))
  {
    var b, n := EncodeCas(key, expected, value), |key|;
    assert b[..2] == LE16(n);
    ReadWrite16(n);
    assert b[2..2 + n] == key && b[2 + n..2 + n + HASH_SIZE] == expected && b[2 + n + HASH_SIZE..] == value;
  }

  // ----- key lists

  const KV_MAX_KEY := 256
  const KV_MAX_LIST := 256

  function EncodeKeyList(keys: seq<bytes>): (bs: bytes) {
    if keys == [] then [] else EncodeKeyValue(keys[0], EncodeKeyList(keys[1..]))
  }

  /** `DecodeKVList`; `have` keys have been decoded already. */
  function DecodeKeyListFrom(raw: bytes, have: nat): (r: Option<seq<bytes>>)
    decreases |raw|
  {
    if raw == [] then Some([])
    else match DecodeKeyValue(raw)
      case None => None
      case Some((key, rest)) =>
        if |key| == 0 || |key| > KV_MAX_KEY || have >= KV_MAX_LIST then None
        else match DecodeKeyListFrom(rest, have + 1)
          case None => None
          case Some(more) => Some([key] + more)
  }

  function DecodeKeyList(raw: bytes): (r: Option<seq<bytes>>) {
    DecodeKeyListFrom(raw, 0)
  }

  predicate ListableKey(k: bytes) {
    1 <= |k| <= KV_MAX_KEY
  }

  predicate AllListable(keys: seq<bytes>) {
    forall i :: 0 <= i < |keys| ==> ListableKey(keys[i])
  }

  lemma AllListableCons(keys: seq<bytes>)
    requires keys != []
    ensures AllListable(keys) <==> ListableKey(keys[0]) && AllListable(keys[1..])
  {
    if ListableKey(keys[0]) && AllListable(keys[1..]) {
      assert forall i :: 0 < i < |keys| ==> keys[i] == keys[1..][i - 1];
    }
  }

  /** A list comes back whole exactly when every key and the count respect the caps; otherwise it is refused. */
  lemma {:induction false} KeyListRoundTrip(keys: seq<bytes>, have: nat)
    requires forall i :: 0 <= i < |keys| ==> |keys[i]| < U16
    ensures DecodeKeyListFrom(EncodeKeyList(keys), have) ==
            if AllListable(keys) && (keys == [] || have + |keys| <= KV_MAX_LIST) then Some(keys) else None
    decreases |keys|
  {
    if keys != [] {
      KeyValueRoundTrip(keys[0], EncodeKeyList(keys[1..]));
      KeyListRoundTrip(keys[1..], have + 1);
      AllListableCons(keys);
      assert [keys[0]] + keys[1..] == keys;
    }
  }

  /** A list the decoder accepts is the encoding of what it decodes to. */
  lemma {:induction false} KeyListReencodes(raw: bytes, have: nat)
    requires DecodeKeyListFrom(raw, have).Some?
    ensures EncodeKeyList(DecodeKeyListFrom(raw, have).value) == raw
    decreases |raw|
  {
    if raw != [] {
      var (key, rest) := DecodeKeyValue(raw).value;
      var more := DecodeKeyListFrom(rest, have + 1).value;
      KeyListReencodes(rest, have + 1);
      KeyValueReencodes(raw, key, rest);
      hide EncodeKeyValue, DecodeKeyValue;
      assert ([key] + more)[1..] == more;
    }
  }

  lemma KeyValueReencodes(raw: bytes, key: bytes, rest: bytes)
    requires DecodeKeyValue(raw) == Some((key, rest))
    ensures EncodeKeyValue(key, rest) == raw
  {
    WriteRead16(raw[..2]);
    hide LE16, ReadLE16;
    assert raw == raw[..2] + key + rest;
  }

  // ----- identities

  const AUTH_MAX_USER := 256

  datatype Identity = Identity(user: bytes, authenticated: bool, kind: byte, ownsApp: bool)

  function WireUser(user: bytes): (u: bytes)
    ensures |u| <= AUTH_MAX_USER && u <= user
    ensures |user| <= AUTH_MAX_USER ==> u == user
  {
    if |user| > AUTH_MAX_USER then user[..AUTH_MAX_USER] else user
  }

  function EncodeIdentity(id: Identity): (bs: bytes) {
    var u := WireUser(id.user);
    var auth := if id.authenticated then 1 else 0;
    var owns := if id.ownsApp then 2 else 0;
    [auth + owns + 4 * (id.kind % 4)] + LE16(|u|) + u
  }

  function DecodeIdentity(b: bytes): (r: Option<Identity>) {
    if |b| < 3 then None
    else
      var n := ReadLE16(b[1..3]);
      if |b| != 3 + n then None
      else Some(Identity(b[3..], b[0] % 2 == 1, b[0] / 4 % 4, b[0] / 2 % 2 == 1))
  }

  /** Three bytes, then exactly as many as they announce. */
  lemma IdentityAcceptedIff(b: bytes)
    ensures DecodeIdentity(b).Some? <==> |b| >= 3 && |b| == 3 + b[1] as nat + 256 * b[2] as nat
  {
    if |b| >= 3 {
      assert b[1..3][0] == b[1] && b[1..3][1] == b[2];
    }
  }

  /** An identity survives up to the user-length cap and the two-bit kind. */
  lemma IdentityRoundTrip(id: Identity)
    ensures DecodeIdentity(EncodeIdentity(id)) == Some(id.(user := WireUser(id.user), kind := id.kind % 4))
  {
    var b, u := EncodeIdentity(id), WireUser(id.user);
    assert b[1..3] == LE16(|u|) && b[3..] == u;
    ReadWrite16(|u|);
    var k: nat := id.kind % 4;
    var flags: nat := b[0];
    assert flags == (if id.authenticated then 1 else 0) + (if id.ownsApp then 2 else 0) + 4 * k;
    assert flags / 4 == k && flags / 2 == 2 * k + (if id.ownsApp then 1 else 0);
  }
}
