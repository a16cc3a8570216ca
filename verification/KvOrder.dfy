/**
 Listing keys: the byte order both `sort.Strings` and SQLite's BLOB comparison use, and
 what a bounded listing by prefix must be. There is exactly one such listing, so stores
 that each produce one list alike.
 */
module KvOrder {
  import opened Bytes

  /** Byte-wise lexicographic order. */
  predicate Less(a: bytes, b: bytes)
    decreases |a|
  {
    b != [] && (a == [] || a[0] < b[0] || (a[0] == b[0] && Less(a[1..], b[1..])))
  }

  /** That is: at the first place where they differ `a` has ended or has the smaller byte. */
  lemma {:induction false} LessIff(a: bytes, b: bytes)
    ensures Less(a, b) <==> exists i :: 0 <= i <= |a| && i < |b| && a[..i] == b[..i] && (i == |a| || a[i] < b[i])
    decreases |a|
  {
    if a != [] && b != [] && a[0] == b[0] {
      LessIff(a[1..], b[1..]);
      if Less(a, b) {
        var i :| 0 <= i <= |a[1..]| && i < |b[1..]| && a[1..][..i] == b[1..][..i] && (i == |a[1..]| || a[1..][i] < b[1..][i]);
        assert a[..i + 1] == [a[0]] + a[1..][..i] && b[..i + 1] == [b[0]] + b[1..][..i];
        assert i + 1 == |a| || a[i + 1] < b[i + 1];
      }
      if i :| 0 <= i <= |a| && i < |b| && a[..i] == b[..i] && (i == |a| || a[i] < b[i]) {
        assert i > 0;
        assert a[1..][..i - 1] == a[..i][1..] && b[1..][..i - 1] == b[..i][1..];
      }
    } else if Less(a, b) {
      assert a[..0] == b[..0];
    } else {
      assert forall i :: 0 < i <= |a| && i < |b| && a[..i] == b[..i] ==> a[..i][0] == b[..i][0];
    }
  }

  lemma {:induction false} LessIrreflexive(a: bytes)
    ensures !Less(a, a)
    decreases |a|
  {
    if a != [] {
      LessIrreflexive(a[1..]);
    }
  }

  lemma {:induction false} LessTransitive(a: bytes, b: bytes, c: bytes)
    requires Less(a, b) && Less(b, c)
    ensures Less(a, c)
    decreases |a|
  {
    if a != [] && a[0] == b[0] && b[0] == c[0] {
      LessTransitive(a[1..], b[1..], c[1..]);
    }
  }

  lemma {:induction false} LessTotal(a: bytes, b: bytes)
    ensures a == b || Less(a, b) || Less(b, a)
    decreases |a|
  {
    if a != [] && b != [] && a[0] == b[0] {
      LessTotal(a[1..], b[1..]);
      assert a == [a[0]] + a[1..] && b == [b[0]] + b[1..];
    }
  }

  lemma LessAsymmetric(a: bytes, b: bytes)
    requires Less(a, b)
    ensures !Less(b, a) && a != b
  {
    LessIrreflexive(a);
    if Less(b, a) {
      LessTransitive(a, b, a);
    }
  }

  predicate HasPrefix(k: bytes, prefix: bytes) {
    prefix <= k
  }

  ghost predicate Ascending(ks: seq<bytes>) {
    forall i, j :: 0 <= i < j < |ks| ==> Less(ks[i], ks[j])
  }

  /** The first `limit` keys with the prefix, in order. */
  ghost predicate IsListing(keys: set<bytes>, prefix: bytes, limit: nat, ks: seq<bytes>) {
    && Ascending(ks) && |ks| <= limit
    && (forall i :: 0 <= i < |ks| ==> ks[i] in keys && HasPrefix(ks[i], prefix))
    && (forall k :: k in keys && HasPrefix(k, prefix) && k !in ks ==> |ks| == limit && forall i :: 0 <= i < |ks| ==> Less(ks[i], k))
  }

  /** A listing with room to spare holds exactly the keys that begin with the prefix, the prefix itself included. */
  lemma ListsAll(keys: set<bytes>, prefix: bytes, limit: nat, ks: seq<bytes>, k: bytes)
    requires IsListing(keys, prefix, limit, ks) && |ks| < limit
    ensures k in ks <==> k in keys && |k| >= |prefix| && forall i :: 0 <= i < |prefix| ==> k[i] == prefix[i]
  {
    hide Less;
    assert HasPrefix(k, prefix) <==> |k| >= |prefix| && k[..|prefix|] == prefix;
  }

  /** Where two listings first differ, neither can be the smaller. */
  lemma FirstNotLess(keys: set<bytes>, prefix: bytes, limit: nat, a: seq<bytes>, b: seq<bytes>, i: nat)
    requires IsListing(keys, prefix, limit, a) && IsListing(keys, prefix, limit, b)
    requires i < |a| && i < |b| && a[..i] == b[..i]
    ensures !Less(a[i], b[i])
  {
    LessIrreflexive(a[i]);
    assert forall j :: 0 <= j < i ==> b[j] == b[..i][j] == a[..i][j] == a[j];
    if a[i] in b {
      var j :| 0 <= j < |b| && b[j] == a[i];
      assert j >= i;
      if j > i {
        LessAsymmetric(b[i], b[j]);
      }
    } else {
      LessAsymmetric(b[i], a[i]);
    }
  }

  lemma {:induction false} ListingsShare(keys: set<bytes>, prefix: bytes, limit: nat, a: seq<bytes>, b: seq<bytes>, n: nat)
    requires IsListing(keys, prefix, limit, a) && IsListing(keys, prefix, limit, b) && n <= |a| && n <= |b|
    ensures a[..n] == b[..n]
    decreases n
  {
    if n > 0 {
      ListingsShare(keys, prefix, limit, a, b, n - 1);
      LessTotal(a[n - 1], b[n - 1]);
      FirstNotLess(keys, prefix, limit, a, b, n - 1);
      FirstNotLess(keys, prefix, limit, b, a, n - 1);
      assert a[..n] == a[..n - 1] + [a[n - 1]] && b[..n] == b[..n - 1] + [b[n - 1]];
    }
  }

  lemma NotShorter(keys: set<bytes>, prefix: bytes, limit: nat, a: seq<bytes>, b: seq<bytes>)
    requires IsListing(keys, prefix, limit, a) && IsListing(keys, prefix, limit, b)
    ensures |a| >= |b|
  {
    var n := if |a| < |b| then |a| else |b|;
    ListingsShare(keys, prefix, limit, a, b, n);
    assert forall j :: 0 <= j < n ==> a[j] == a[..n][j] == b[..n][j] == b[j];
    if n < |b| {
      LessIrreflexive(b[n]);
    }
  }

  /** There is only one listing. */
  lemma ListingUnique(keys: set<bytes>, prefix: bytes, limit: nat, a: seq<bytes>, b: seq<bytes>)
    requires IsListing(keys, prefix, limit, a) && IsListing(keys, prefix, limit, b)
    ensures a == b
  {
    NotShorter(keys, prefix, limit, a, b);
    NotShorter(keys, prefix, limit, b, a);
    ListingsShare(keys, prefix, limit, a, b, |a|);
    assert a[..|a|] == a && b[..|b|] == b;
  }

  // ----- collect, sort, cut

  /** Where a key belongs in an ascending sequence. */
  method FindPlace(ks: seq<bytes>, k: bytes) returns (n: nat)
    requires Ascending(ks) && k !in ks
    ensures n <= |ks|
    ensures forall i :: 0 <= i < n ==> Less(ks[i], k)
    ensures forall i :: n <= i < |ks| ==> Less(k, ks[i])
  {
    n := 0;
    while n < |ks| && Less(ks[n], k)
      invariant 0 <= n <= |ks| && forall i :: 0 <= i < n ==> Less(ks[i], k)
    {
      n := n + 1;
    }
    forall i | n <= i < |ks| ensures Less(k, ks[i]) {
      LessTotal(k, ks[n]);
      if i > n {
        LessTransitive(k, ks[n], ks[i]);
      }
    }
  }

  /** Sorting the collected keys, one insertion at a time. */
  method SortKeys(found: seq<bytes>) returns (ks: seq<bytes>)
    requires forall i, j :: 0 <= i < j < |found| ==> found[i] != found[j]
    ensures Ascending(ks) && |ks| == |found| && forall k :: k in ks <==> k in found
  {
    ks := [];
    for n := 0 to |found|
      invariant Ascending(ks) && |ks| == n && forall k :: k in ks <==> k in found[..n]
    {
      var k := found[n];
      assert k !in found[..n];
      var p := FindPlace(ks, k);
      InsertAscending(ks, k, p);
      ks := ks[..p] + [k] + ks[p..];
      assert found[..n + 1] == found[..n] + [k];
    }
    assert found[..|found|] == found;
  }

  lemma InsertAscending(ks: seq<bytes>, k: bytes, p: nat)
    requires Ascending(ks) && p <= |ks|
    requires (forall i :: 0 <= i < p ==> Less(ks[i], k)) && (forall i :: p <= i < |ks| ==> Less(k, ks[i]))
    ensures Ascending(ks[..p] + [k] + ks[p..])
    ensures forall x :: x in ks[..p] + [k] + ks[p..] <==> x == k || x in ks
  {
    hide Less;
    assert ks == ks[..p] + ks[p..];
  }

  /** `List` of the in-memory store: collect by prefix in no particular order, sort, cut. */
  method CollectSortCut(keys: set<bytes>, prefix: bytes, limit: nat) returns (ks: seq<bytes>)
    ensures IsListing(keys, prefix, limit, ks)
  {
    var found: seq<bytes> := [];
    var todo := keys;
    while todo != {}
      invariant todo <= keys
      invariant forall i, j :: 0 <= i < j < |found| ==> found[i] != found[j]
      invariant forall k :: k in found <==> k in keys && k !in todo && HasPrefix(k, prefix)
      decreases |todo|
    {
      var k :| k in todo;
      if HasPrefix(k, prefix) {
        found := found + [k];
      }
      todo := todo - {k};
    }
    var sorted := SortKeys(found);
    ks := sorted;
    if |ks| > limit {
      ks := ks[..limit];
    }
    CutIsListing(keys, prefix, limit, sorted, ks);
  }

  lemma CutIsListing(keys: set<bytes>, prefix: bytes, limit: nat, sorted: seq<bytes>, ks: seq<bytes>)
    requires Ascending(sorted) && forall k :: k in sorted <==> k in keys && HasPrefix(k, prefix)
    requires ks == if |sorted| > limit then sorted[..limit] else sorted
    ensures IsListing(keys, prefix, limit, ks)
  {
    hide Less;
    forall k | k in keys && HasPrefix(k, prefix) && k !in ks
      ensures |ks| == limit && forall i :: 0 <= i < |ks| ==> Less(ks[i], k)
    {
      var j :| 0 <= j < |sorted| && sorted[j] == k;
      assert j >= |ks|;
    }
    assert forall i :: 0 <= i < |ks| ==> ks[i] == sorted[i] && ks[i] in sorted;
  }

  // ----- ORDER BY key LIMIT n

  ghost predicate IsNext(keys: set<bytes>, prefix: bytes, ks: seq<bytes>, k: bytes) {
    && k in keys && HasPrefix(k, prefix) && k !in ks
    && forall x :: x in keys && HasPrefix(x, prefix) && x !in ks ==> x == k || Less(k, x)
  }

  /** The least matching key not yet returned. */
  method NextRow(keys: set<bytes>, prefix: bytes, ks: seq<bytes>) returns (found: bool, k: bytes)
    ensures found ==> IsNext(keys, prefix, ks, k)
    ensures !found ==> forall x :: x in keys && HasPrefix(x, prefix) ==> x in ks
  {
    found, k := false, [];
    var todo := keys;
    while todo != {}
      invariant todo <= keys
      invariant found ==> k in keys && HasPrefix(k, prefix) && k !in ks
      invariant found ==> forall x :: x in keys && x !in todo && HasPrefix(x, prefix) && x !in ks ==> x == k || Less(k, x)
      invariant !found ==> forall x :: x in keys && x !in todo && HasPrefix(x, prefix) ==> x in ks
      decreases |todo|
    {
      var x :| x in todo;
      if HasPrefix(x, prefix) && x !in ks {
        if !found {
          found, k := true, x;
        } else {
          ghost var was := k;
          LessTotal(x, k);
          if Less(x, k) {
            k := x;
            forall y | y in keys && y !in todo && HasPrefix(y, prefix) && y !in ks ensures Less(k, y) {
              if y != was {
                LessTransitive(x, was, y);
              }
            }
          }
        }
      }
      todo := todo - {x};
    }
  }

  /** Rows in key order up to a limit, as the query returns them. */
  method OrderedRows(keys: set<bytes>, prefix: bytes, limit: nat) returns (ks: seq<bytes>)
    ensures IsListing(keys, prefix, limit, ks)
  {
    ks := [];
    while |ks| < limit
      invariant Ascending(ks) && |ks| <= limit
      invariant forall i :: 0 <= i < |ks| ==> ks[i] in keys && HasPrefix(ks[i], prefix)
      invariant forall i, x :: 0 <= i < |ks| && x in keys && HasPrefix(x, prefix) && x !in ks ==> Less(ks[i], x)
      decreases limit - |ks|
    {
      var found, k := NextRow(keys, prefix, ks);
      if !found {
        return;
      }
      ks := ks + [k];
    }
  }
}
