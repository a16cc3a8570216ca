/**
 "Did you mean ...?": the two-row edit-distance table of the command line, and the
 choice of a suggestion. A string is the runes a range loop visits, each with the
 number of bytes it takes, because the table is indexed by byte offset.
 */
module EditDistance {
  import opened Runes

  /** Every byte its own rune: all of ASCII. */
  ghost predicate SingleByte(t: Text) {
    forall k :: 0 <= k < |t| ==> t[k].width == 1
  }

  // ----- reference: edit scripts

  /** A script, read from the right end of both strings. */
  datatype Script =
    | Done
    | Keep(rest: Script)
    | Substitute(rest: Script)
    | Insert(rest: Script)
    | Delete(rest: Script)

  function Front(t: Text): (r: Text)
    requires t != []
  {
    t[..|t| - 1]
  }

  function End(t: Text): (code: nat)
    requires t != []
  {
    t[|t| - 1].code
  }

  /** The script turns `a` into `b`; a substitution or insertion writes the last rune of `b`. */
  ghost predicate Turns(s: Script, a: Text, b: Text)
    decreases s
  {
    match s
    case Done => a == [] && b == []
    case Keep(rest) => a != [] && b != [] && End(a) == End(b) && Turns(rest, Front(a), Front(b))
    case Substitute(rest) => a != [] && b != [] && Turns(rest, Front(a), Front(b))
    case Insert(rest) => b != [] && Turns(rest, a, Front(b))
    case Delete(rest) => a != [] && Turns(rest, Front(a), b)
  }

  function Cost(s: Script): (n: nat) {
    match s
    case Done => 0
    case Keep(rest) => Cost(rest)
    case Substitute(rest) => Cost(rest) + 1
    case Insert(rest) => Cost(rest) + 1
    case Delete(rest) => Cost(rest) + 1
  }

  function Min3(x: int, y: int, z: int): (r: int) {
    var m := if x < y then x else y;
    if m < z then m else z
  }

  function Distance(a: Text, b: Text): (n: nat)
    decreases |a| + |b|
  {
    if a == [] then |b|
    else if b == [] then |a|
    else Min3(Distance(Front(a), b) + 1, Distance(a, Front(b)) + 1,
              Distance(Front(a), Front(b)) + if End(a) == End(b) then 0 else 1)
  }

  /** No script is cheaper than the distance. */
  lemma {:induction false} DistanceIsLeast(s: Script, a: Text, b: Text)
    requires Turns(s, a, b)
    ensures Distance(a, b) <= Cost(s)
    decreases s
  {
    match s
    case Done =>
    case Keep(rest) => DistanceIsLeast(rest, Front(a), Front(b));
    case Substitute(rest) => DistanceIsLeast(rest, Front(a), Front(b));
    case Insert(rest) => DistanceIsLeast(rest, a, Front(b));
    case Delete(rest) => DistanceIsLeast(rest, Front(a), b);
  }

  /** Some script is as cheap as the distance. */
  lemma {:induction false} DistanceIsReached(a: Text, b: Text) returns (s: Script)
    ensures Turns(s, a, b) && Cost(s) == Distance(a, b)
    decreases |a| + |b|
  {
    if a == [] && b == [] {
      s := Done;
    } else if a == [] {
      var rest := DistanceIsReached(a, Front(b));
      s := Insert(rest);
    } else if b == [] {
      var rest := DistanceIsReached(Front(a), b);
      s := Delete(rest);
    } else if Distance(a, b) == Distance(Front(a), b) + 1 {
      var rest := DistanceIsReached(Front(a), b);
      s := Delete(rest);
    } else if Distance(a, b) == Distance(a, Front(b)) + 1 {
      var rest := DistanceIsReached(a, Front(b));
      s := Insert(rest);
    } else {
      var rest := DistanceIsReached(Front(a), Front(b));
      s := if End(a) == End(b) then Keep(rest) else Substitute(rest);
    }
  }

  // ----- the table as the program fills it

  type Row = seq<int>

  function FirstRow(b: Text): (r: Row) {
    seq(Length(b) + 1, j => j)
  }

  /** One row after the first `k` runes of `b`: entries sit one past each rune's byte offset. */
  function FillRow(previous: Row, i: nat, left: nat, b: Text, k: nat): (r: Row)
    requires k <= |b| && WellFormed(b) && |previous| == Length(b) + 1
    ensures |r| == Length(b) + 1
  {
    if k == 0 then seq(Length(b) + 1, j => if j == 0 then i + 1 else 0)
    else
      var r := FillRow(previous, i, left, b, k - 1);
      var j := Length(b[..k - 1]);
      OffsetInside(b, k - 1);
      r[j + 1 := Min3(previous[j + 1] + 1, r[j] + 1, previous[j] + if left != b[k - 1].code then 1 else 0)]
  }

  lemma {:induction false} OffsetInside(b: Text, k: nat)
    requires k < |b| && WellFormed(b)
    ensures Length(b[..k]) + 1 <= Length(b)
    decreases |b|
  {
    if k == |b| - 1 {
      assert b[..k] == Front(b);
    } else {
      assert Front(b)[..k] == b[..k];
      OffsetInside(Front(b), k);
    }
  }

  /** The row after the first `n` runes of `a`. */
  function Table(a: Text, b: Text, n: nat): (r: Row)
    requires n <= |a| && WellFormed(a) && WellFormed(b)
    ensures |r| == Length(b) + 1
  {
    if n == 0 then FirstRow(b)
    else FillRow(Table(a, b, n - 1), Length(a[..n - 1]), a[n - 1].code, b, |b|)
  }

  function Computed(a: Text, b: Text): (r: int)
    requires WellFormed(a) && WellFormed(b)
  {
    Table(a, b, |a|)[Length(b)]
  }

  // ----- on single-byte strings the table holds the distances

  lemma {:induction false} SingleByteLength(t: Text)
    requires SingleByte(t)
    ensures Length(t) == |t|
    decreases |t|
  {
    if t != [] {
      SingleByteLength(Front(t));
    }
  }

  /** Entry `j` is the distance from the first `n` runes of `a` to the first `j` of `b`. */
  ghost predicate RowOf(r: Row, a: Text, b: Text, done: nat)
    requires done <= |b| < |r|
  {
    forall j :: 0 <= j <= done ==> r[j] == Distance(a, b[..j])
  }

  lemma {:induction false} DistanceStep(a: Text, b: Text)
    requires a != [] && b != []
    ensures Distance(a, b) == Min3(Distance(Front(a), b) + 1, Distance(a, Front(b)) + 1,
                                   Distance(Front(a), Front(b)) + if End(a) == End(b) then 0 else 1)
  {}

  lemma {:induction false} EmptyTarget(a: Text)
    ensures Distance(a, []) == |a|
  {}

  lemma {:induction false} EntryIsDistance(previous: Row, row: Row, a: Text, b: Text, k: nat)
    requires a != [] && 0 < k <= |b| && |previous| == |row| == |b| + 1
    requires RowOf(previous, Front(a), b, |b|) && row[k - 1] == Distance(a, b[..k - 1])
    ensures Distance(a, b[..k]) == Min3(previous[k] + 1, row[k - 1] + 1, previous[k - 1] + if End(a) != b[k - 1].code then 1 else 0)
  {
    hide Distance, Min3;
    var target := b[..k];
    DistanceStep(a, target);
    assert Front(target) == b[..k - 1] && End(target) == b[k - 1].code;
    assert previous[k] == Distance(Front(a), target) && previous[k - 1] == Distance(Front(a), Front(target));
  }

  lemma {:induction false} RowIsDistance(previous: Row, a: Text, b: Text, k: nat)
    requires a != [] && SingleByte(b) && WellFormed(b) && k <= |b| && |previous| == Length(b) + 1 == |b| + 1
    requires RowOf(previous, Front(a), b, |b|)
    ensures RowOf(FillRow(previous, |a| - 1, End(a), b, k), a, b, k)
    decreases k
  {
    hide Distance, Min3;
    if k == 0 {
      EmptyTarget(a);
    } else {
      RowIsDistance(previous, a, b, k - 1);
      SingleByteLength(b[..k - 1]);
      var target := b[..k];
      assert Front(target) == b[..k - 1] && End(target) == b[k - 1].code;
      EntryIsDistance(previous, FillRow(previous, |a| - 1, End(a), b, k - 1), a, b, k);
    }
  }

  /** Every rune before the last takes one byte, so each row starts at its rune's index. */
  ghost predicate LeadsSingle(a: Text) {
    a == [] || SingleByte(Front(a))
  }

  lemma {:induction false} TableIsDistance(a: Text, b: Text, n: nat)
    requires LeadsSingle(a) && SingleByte(b) && n <= |a| && WellFormed(a) && WellFormed(b)
    ensures Length(b) == |b| && RowOf(Table(a, b, n), a[..n], b, |b|)
    decreases n
  {
    SingleByteLength(b);
    if n > 0 {
      TableIsDistance(a, b, n - 1);
      assert a[..n - 1] == Front(a)[..n - 1];
      SingleByteLength(a[..n - 1]);
      assert Front(a[..n]) == a[..n - 1];
      RowIsDistance(Table(a, b, n - 1), a[..n], b, |b|);
    }
  }

  /** Then, against a single-byte string, the program computes the cost of a cheapest edit script. */
  lemma ComputedIsDistance(a: Text, b: Text)
    requires LeadsSingle(a) && SingleByte(b) && WellFormed(a) && WellFormed(b)
    ensures Computed(a, b) == Distance(a, b)
  {
    TableIsDistance(a, b, |a|);
    assert a[..|a|] == a && b[..|b|] == b;
  }

  // ----- exactly when it does

  /** Against the empty string the table counts the bytes before the last rune. */
  lemma ComputedToEmpty(a: Text)
    requires WellFormed(a) && a != []
    ensures WellFormed([]) && Computed(a, []) == Length(Front(a)) + 1
  {
    var b: Text := [];
    assert a[..|a| - 1] == Front(a);
    assert Table(a, b, |a|) == FillRow(Table(a, b, |a| - 1), Length(Front(a)), a[|a| - 1].code, b, 0);
  }

  lemma {:induction false} LengthExceeds(t: Text)
    requires WellFormed(t)
    ensures Length(t) >= |t| && (Length(t) == |t| <==> SingleByte(t))
    decreases |t|
  {
    if t != [] {
      LengthExceeds(Front(t));
      assert SingleByte(t) <==> SingleByte(Front(t)) && t[|t| - 1].width == 1;
    }
  }

  /** A first string is measured right against every single-byte string if and only if all its runes but the last are single bytes. */
  lemma LeftExactIff(a: Text)
    requires WellFormed(a)
    ensures (forall b: Text :: WellFormed(b) && SingleByte(b) ==> Computed(a, b) == Distance(a, b)) <==> LeadsSingle(a)
  {
    if LeadsSingle(a) {
      forall b: Text | WellFormed(b) && SingleByte(b) ensures Computed(a, b) == Distance(a, b) {
        ComputedIsDistance(a, b);
      }
    } else {
      var none: Text := [];
      ComputedToEmpty(a);
      LengthExceeds(Front(a));
      EmptyTarget(a);
      assert WellFormed(none) && SingleByte(none) && Computed(a, none) != Distance(a, none);
    }
  }

  /** After `k` runes, the columns past the last entry written are still zero. */
  lemma {:induction false} BeyondIsZero(previous: Row, i: nat, left: nat, b: Text, k: nat, c: nat)
    requires k <= |b| && WellFormed(b) && |previous| == Length(b) + 1 && c <= Length(b)
    requires if k == 0 then c > 0 else c > Length(b[..k - 1]) + 1
    ensures FillRow(previous, i, left, b, k)[c] == 0
    decreases k
  {
    if k > 0 {
      if k > 1 {
        OffsetGrows(b, k - 1);
      }
      BeyondIsZero(previous, i, left, b, k - 1, c);
    }
  }

  lemma OffsetGrows(b: Text, k: nat)
    requires 0 < k <= |b| && WellFormed(b)
    ensures Length(b[..k]) == Length(b[..k - 1]) + b[k - 1].width
  {
    assert Front(b[..k]) == b[..k - 1];
  }

  /** Once a multi-byte rune has passed, the entry at the current offset counts only the runes so far. */
  lemma {:induction false} EntryStaysSmall(previous: Row, i: nat, left: nat, b: Text, k: nat)
    requires k <= |b| && WellFormed(b) && |previous| == Length(b) + 1 && !SingleByte(b[..k])
    ensures Length(b[..k]) <= Length(b) && FillRow(previous, i, left, b, k)[Length(b[..k])] <= k
    decreases k
  {
    OffsetGrows(b, k);
    OffsetWithin(b, k);
    if b[k - 1].width > 1 {
      BeyondIsZero(previous, i, left, b, k, Length(b[..k]));
    } else {
      assert b[..k] == b[..k - 1] + [b[k - 1]];
      EntryStaysSmall(previous, i, left, b, k - 1);
    }
  }

  lemma OffsetWithin(b: Text, k: nat)
    requires k <= |b| && WellFormed(b)
    ensures Length(b[..k]) <= Length(b)
  {
    if k == |b| {
      assert b[..k] == b;
    } else {
      OffsetInside(b, k);
    }
  }

  /** Against a string with a multi-byte rune no non-empty string is farther than that string has runes. */
  lemma ComputedStaysSmall(a: Text, b: Text)
    requires WellFormed(a) && WellFormed(b) && a != [] && !SingleByte(b)
    ensures Computed(a, b) <= |b|
  {
    var n := |a|;
    assert b[..|b|] == b;
    EntryStaysSmall(Table(a, b, n - 1), Length(a[..n - 1]), a[n - 1].code, b, |b|);
  }

  lemma {:induction false} DistanceAtLeast(a: Text, b: Text)
    ensures Distance(a, b) >= |a| - |b|
    decreases |a| + |b|
  {
    if a != [] && b != [] {
      DistanceAtLeast(Front(a), b);
      DistanceAtLeast(a, Front(b));
      DistanceAtLeast(Front(a), Front(b));
    }
  }

  /** A second string is measured right against every single-byte string if and only if it is one itself. */
  lemma RightExactIff(b: Text)
    requires WellFormed(b)
    ensures (forall a: Text :: WellFormed(a) && SingleByte(a) ==> Computed(a, b) == Distance(a, b)) <==> SingleByte(b)
  {
    if SingleByte(b) {
      forall a: Text | WellFormed(a) && SingleByte(a) ensures Computed(a, b) == Distance(a, b) {
        ComputedIsDistance(a, b);
      }
    } else {
      var long: Text := seq(2 * |b| + 1, _ => Rune(0x61, 1));
      ComputedStaysSmall(long, b);
      DistanceAtLeast(long, b);
      assert WellFormed(long) && SingleByte(long) && Computed(long, b) != Distance(long, b);
    }
  }

  /** When it ends in a multi-byte rune the last column belongs to no rune, and the answer is 0 for every non-empty string. */
  lemma MultiByteEndIsZero(a: Text, b: Text)
    requires WellFormed(a) && WellFormed(b) && a != [] && b != [] && b[|b| - 1].width > 1
    ensures Computed(a, b) == 0
  {
    var n := |a|;
    assert b[..|b|] == b;
    OffsetGrows(b, |b|);
    BeyondIsZero(Table(a, b, n - 1), Length(a[..n - 1]), a[n - 1].code, b, |b|, Length(b));
  }

  /** "e" with an acute accent in front of "a" is 2 edits from nothing and measured as 3; alone it is 1 edit from "a" and measured as 0. */
  lemma AccentMeasuredWrong()
    ensures var accent, plain := Rune(0xE9, 2), Rune(0x61, 1);
      && Computed([accent, plain], []) == 3 && Distance([accent, plain], []) == 2
      && Computed([plain], [accent]) == 0 && Distance([plain], [accent]) == 1
  {
    var accent, plain := Rune(0xE9, 2), Rune(0x61, 1);
    var both := [accent, plain];
    ComputedToEmpty(both);
    assert Front(both) == [accent] && Front([accent]) == [] && Front([plain]) == [];
    MultiByteEndIsZero([plain], [accent]);
  }

  // ----- the loops

  method Measure(a: Text, b: Text) returns (d: int)
    requires WellFormed(a) && WellFormed(b)
    ensures d == Computed(a, b)
    ensures LeadsSingle(a) && SingleByte(b) ==> d == Distance(a, b)
  {
    var size := ByteLength(b);
    var previous := new int[size + 1](j => j);
    assert previous[..] == FirstRow(b);
    var n, i := 0, 0;
    while n < |a|
      invariant 0 <= n <= |a| && previous.Length == size + 1
      invariant i == Length(a[..n]) && previous[..] == Table(a, b, n)
    {
      var current := FillCurrent(previous, i, a[n].code, b, size);
      previous := current;
      assert Front(a[..n + 1]) == a[..n];
      i, n := i + a[n].width, n + 1;
    }
    d := previous[size];
    assert d == previous[..][size];
    assert a[..|a|] == a;
    if LeadsSingle(a) && SingleByte(b) {
      ComputedIsDistance(a, b);
    }
  }

  method ByteLength(t: Text) returns (n: nat)
    ensures n == Length(t)
  {
    n := 0;
    for k := 0 to |t|
      invariant n == Length(t[..k])
    {
      assert Front(t[..k + 1]) == t[..k];
      n := n + t[k].width;
    }
    assert t[..|t|] == t;
  }

  method FillCurrent(previous: array<int>, i: nat, left: nat, b: Text, size: nat) returns (current: array<int>)
    requires WellFormed(b) && size == Length(b) && previous.Length == size + 1
    ensures fresh(current) && current.Length == size + 1
    ensures current[..] == FillRow(previous[..], i, left, b, |b|)
  {
    hide Min3;
    ghost var prev := previous[..];
    current := new int[size + 1](_ => 0);
    current[0] := i + 1;
    assert current[..] == FillRow(prev, i, left, b, 0);
    var j := 0;
    for k := 0 to |b|
      invariant j == Length(b[..k]) && current.Length == size + 1 && fresh(current)
      invariant previous[..] == prev && current[..] == FillRow(prev, i, left, b, k)
    {
      OffsetInside(b, k);
      var cost := if left != b[k].code then 1 else 0;
      ghost var row := current[..];
      var entry := Min3(previous[j + 1] + 1, current[j] + 1, previous[j] + cost);
      assert entry == Min3(prev[j + 1] + 1, row[j] + 1, prev[j] + cost);
      assert FillRow(prev, i, left, b, k + 1) == row[j + 1 := entry];
      current[j + 1] := entry;
      assert current[..] == row[j + 1 := entry];
      assert Front(b[..k + 1]) == b[..k];
      j := j + b[k].width;
    }
  }

  // ----- choosing a suggestion

  const DASH: nat := 45

  function TrimDashes(t: Text): (r: Text)
    ensures WellFormed(t) ==> WellFormed(r)
  {
    if t != [] && t[0].code == DASH then TrimDashes(t[1..]) else t
  }

  /** What is left begins at the first rune that is no dash. */
  lemma {:induction false} TrimmedIs(t: Text)
    ensures var r := TrimDashes(t);
      && |r| <= |t| && r == t[|t| - |r|..] && (forall k :: 0 <= k < |t| - |r| ==> t[k].code == '-' as nat)
      && (r != [] ==> r[0].code != '-' as nat)
    decreases |t|
  {
    if t != [] && t[0].code == DASH {
      TrimmedIs(t[1..]);
      assert forall k :: 1 <= k < |t| ==> t[k] == t[1..][k - 1];
    }
  }

  ghost predicate AllWellFormed(candidates: seq<Text>) {
    forall k :: 0 <= k < |candidates| ==> WellFormed(candidates[k])
  }

  /** How far candidate `k` is from the name, as the program measures it. */
  function Far(name: Text, candidates: seq<Text>, k: nat): (d: int)
    requires k < |candidates| && WellFormed(name) && WellFormed(candidates[k])
  {
    Computed(name, TrimDashes(candidates[k]))
  }

  const TOO_FAR: int := 3

  /** Candidate `k` is close enough and strictly closer than every other one. */
  ghost predicate Alone(name: Text, candidates: seq<Text>, k: nat)
    requires WellFormed(name) && AllWellFormed(candidates) && k < |candidates|
  {
    && Far(name, candidates, k) < TOO_FAR
    && forall j :: 0 <= j < |candidates| && j != k ==> Far(name, candidates, k) < Far(name, candidates, j)
  }

  /** What the loop knows after `n` candidates. */
  ghost predicate Scanned(name: Text, candidates: seq<Text>, n: nat, best: Text, distance: int)
    requires WellFormed(name) && AllWellFormed(candidates) && n <= |candidates|
  {
    && distance <= TOO_FAR
    && (forall j :: 0 <= j < n ==> distance <= Far(name, candidates, j))
    && (distance < TOO_FAR ==> exists j :: 0 <= j < n && Far(name, candidates, j) == distance)
    && (best != [] ==> distance < TOO_FAR && exists k :: 0 <= k < n && best == candidates[k] && OnlyAt(name, candidates, n, k, distance))
    && (best == [] ==> forall k :: 0 <= k < n && candidates[k] != [] && distance < TOO_FAR ==> !OnlyAt(name, candidates, n, k, distance))
  }

  ghost predicate OnlyAt(name: Text, candidates: seq<Text>, n: nat, k: nat, distance: int)
    requires WellFormed(name) && AllWellFormed(candidates) && k < n <= |candidates|
  {
    Far(name, candidates, k) == distance && forall j :: 0 <= j < n && j != k ==> Far(name, candidates, j) != distance
  }

  lemma ScanCloser(name: Text, candidates: seq<Text>, n: nat, best: Text, distance: int)
    requires WellFormed(name) && AllWellFormed(candidates) && n < |candidates| && Scanned(name, candidates, n, best, distance)
    requires Far(name, candidates, n) < distance
    ensures Scanned(name, candidates, n + 1, candidates[n], Far(name, candidates, n))
  {
    var d := Far(name, candidates, n);
    hide Far;
    assert OnlyAt(name, candidates, n + 1, n, d);
  }

  lemma ScanTie(name: Text, candidates: seq<Text>, n: nat, best: Text, distance: int)
    requires WellFormed(name) && AllWellFormed(candidates) && n < |candidates| && Scanned(name, candidates, n, best, distance)
    requires Far(name, candidates, n) == distance
    ensures Scanned(name, candidates, n + 1, [], distance)
  {
    hide Far;
    if distance < TOO_FAR {
      var j :| 0 <= j < n && Far(name, candidates, j) == distance;
      var m := n + 1;
      forall k | 0 <= k < m ensures !OnlyAt(name, candidates, m, k, distance) {
        assert k != j || k != n;
      }
    }
  }

  lemma ScanFarther(name: Text, candidates: seq<Text>, n: nat, best: Text, distance: int)
    requires WellFormed(name) && AllWellFormed(candidates) && n < |candidates| && Scanned(name, candidates, n, best, distance)
    requires Far(name, candidates, n) > distance
    ensures Scanned(name, candidates, n + 1, best, distance)
  {
    hide Far;
    if best != [] {
      var k :| 0 <= k < n && best == candidates[k] && OnlyAt(name, candidates, n, k, distance);
      assert OnlyAt(name, candidates, n + 1, k, distance);
    } else {
      var m := n + 1;
      forall k | 0 <= k < m && candidates[k] != [] && distance < TOO_FAR ensures !OnlyAt(name, candidates, m, k, distance) {
        if k < n {
          assert !OnlyAt(name, candidates, n, k, distance);
        }
      }
    }
  }

  /**
   A suggestion is made if and only if one candidate alone is closest, at a distance
   below three (and is not the empty string, which the program uses for "none"); it is
   that candidate.
   */
  method Suggest(name: Text, candidates: seq<Text>) returns (best: Text, ok: bool)
    requires WellFormed(name) && AllWellFormed(candidates)
    ensures ok <==> exists k :: 0 <= k < |candidates| && candidates[k] != [] && Alone(name, candidates, k)
    ensures forall k :: ok && 0 <= k < |candidates| && Alone(name, candidates, k) ==> best == candidates[k]
  {
    hide Scanned, Alone, Computed, TrimDashes;
    var distance := TOO_FAR;
    best := [];
    ScanNone(name, candidates);
    for n := 0 to |candidates|
      invariant Scanned(name, candidates, n, best, distance)
    {
      var current := Measure(name, TrimDashes(candidates[n]));
      assert current == Far(name, candidates, n);
      if current < distance {
        ScanCloser(name, candidates, n, best, distance);
        best, distance := candidates[n], current;
      } else if current == distance {
        ScanTie(name, candidates, n, best, distance);
        best := [];
      } else {
        ScanFarther(name, candidates, n, best, distance);
      }
    }
    ok := best != [];
    ScanDone(name, candidates, best, distance);
  }

  lemma ScanNone(name: Text, candidates: seq<Text>)
    requires WellFormed(name) && AllWellFormed(candidates)
    ensures Scanned(name, candidates, 0, [], TOO_FAR)
  {}

  lemma ScanDone(name: Text, candidates: seq<Text>, best: Text, distance: int)
    requires WellFormed(name) && AllWellFormed(candidates) && Scanned(name, candidates, |candidates|, best, distance)
    ensures best != [] <==> exists k :: 0 <= k < |candidates| && candidates[k] != [] && Alone(name, candidates, k)
    ensures forall k :: best != [] && 0 <= k < |candidates| && Alone(name, candidates, k) ==> best == candidates[k]
  {
    hide Far;
    forall k | 0 <= k < |candidates| && Alone(name, candidates, k)
      ensures distance == Far(name, candidates, k) && OnlyAt(name, candidates, |candidates|, k, distance)
    {
    }
    if best != [] {
      var k :| 0 <= k < |candidates| && best == candidates[k] && OnlyAt(name, candidates, |candidates|, k, distance);
      assert Alone(name, candidates, k);
    }
  }
}
