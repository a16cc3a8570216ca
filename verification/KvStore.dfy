/**
 Guest key/value storage. One reference store decides from recomputed totals; the
 in-memory, file-backed and SQLite stores keep incremental counters and must make
 the same decisions and the same changes.
 */
module KvStore {
  import opened Results
  import opened Bytes
  import opened KvOrder

  type Key = bytes
  type Contents = map<Key, bytes>

  /** SHA-256 as a parameter; nothing below depends on which function it is. */
  type Hash = bytes -> bytes

  const ABSENT_HASH: bytes := seq(32, _ => 0)

  /** Quotas; a limit that is not positive is no limit. */
  datatype Limits = Limits(maxKeys: int, maxBytes: int)

  datatype KvOp =
    | Put(key: Key, value: bytes)
    | Cas(key: Key, expected: bytes, value: bytes)
    | Del(key: Key)

  datatype Verdict = Done | Quota | Conflict | IoError | Invalid | NotFound

  // ----- the reference store

  function EntrySize(k: Key, v: bytes): (n: nat) {
    |k| + |v|
  }

  /** Total bytes of keys and values, recomputed from scratch. */
  ghost function Size(m: Contents): (n: nat)
    decreases |m|
  {
    if m == map[] then 0
    else
      var k :| k in m;
      Smaller(m, k);
      EntrySize(k, m[k]) + Size(m - {k})
  }

  lemma Smaller(m: Contents, k: Key)
    requires k in m
    ensures |m - {k}| == |m| - 1
  {
    assert m.Keys == (m - {k}).Keys + {k};
    assert |m.Keys| == |m| && |(m - {k}).Keys| == |m - {k}|;
  }

  /** The total does not depend on the order in which entries are summed. */
  lemma {:induction false} SizeRemove(m: Contents, k: Key)
    requires k in m
    ensures Size(m) == EntrySize(k, m[k]) + Size(m - {k})
    decreases |m|
  {
    var c :| c in m && Size(m) == EntrySize(c, m[c]) + Size(m - {c});
    if c != k {
      Smaller(m, c);
      SizeRemove(m - {c}, k);
      Smaller(m, k);
      SizeRemove(m - {k}, c);
      assert m - {c} - {k} == m - {k} - {c};
    }
  }

  /** The incremental byte count of a write is the recomputed one. */
  lemma SizeUpdate(m: Contents, k: Key, v: bytes)
    ensures Size(m[k := v]) == Size(m) + |v| - (if k in m then |m[k]| else 0) + (if k in m then 0 else |k|)
    ensures |m[k := v]| == |m| + (if k in m then 0 else 1)
  {
    var u := m[k := v];
    SizeRemove(u, k);
    Smaller(u, k);
    if k in m {
      SizeRemove(m, k);
      Smaller(m, k);
      assert u - {k} == m - {k};
    } else {
      assert u - {k} == m;
    }
  }

  /** Whether a write fits: the key count matters only for a new key, the byte total always. */
  ghost predicate Fits(m: Contents, lim: Limits, k: Key, v: bytes) {
    && (k !in m && lim.maxKeys > 0 ==> |m[k := v]| <= lim.maxKeys)
    && (lim.maxBytes > 0 ==> Size(m[k := v]) <= lim.maxBytes)
  }

  function CurrentHash(m: Contents, hash: Hash, k: Key): (h: bytes) {
    if k in m then hash(m[k]) else ABSENT_HASH
  }

  ghost function Reference(m: Contents, lim: Limits, hash: Hash, op: KvOp): (r: (Contents, Verdict)) {
    match op
    case Del(k) => (m - {k}, Done)
    case Put(k, v) => if Fits(m, lim, k, v) then (m[k := v], Done) else (m, Quota)
    case Cas(k, expected, v) =>
      if CurrentHash(m, hash, k) != expected then (m, Conflict)
      else if Fits(m, lim, k, v) then (m[k := v], Done) else (m, Quota)
  }

  // ----- the in-memory store

  datatype Mem = Mem(m: Contents, bytes: int)

  ghost predicate MemOk(s: Mem) {
    s.bytes == Size(s.m)
  }

  /** The bytes in use after a write, from the running counter. */
  function NewBytes(s: Mem, k: Key, v: bytes): (n: int) {
    s.bytes + |v| - (if k in s.m then |s.m[k]| else 0) + (if k in s.m then 0 else |k|)
  }

  function MemWrite(s: Mem, lim: Limits, k: Key, v: bytes): (r: (Mem, Verdict)) {
    if k !in s.m && lim.maxKeys > 0 && |s.m| + 1 > lim.maxKeys then (s, Quota)
    else if lim.maxBytes > 0 && NewBytes(s, k, v) > lim.maxBytes then (s, Quota)
    else (Mem(s.m[k := v], NewBytes(s, k, v)), Done)
  }

  function MemStep(s: Mem, lim: Limits, hash: Hash, op: KvOp): (r: (Mem, Verdict)) {
    match op
    case Del(k) => (if k in s.m then Mem(s.m - {k}, s.bytes - (|k| + |s.m[k]|)) else s, Done)
    case Put(k, v) => MemWrite(s, lim, k, v)
    case Cas(k, expected, v) => if CurrentHash(s.m, hash, k) != expected then (s, Conflict) else MemWrite(s, lim, k, v)
  }

  lemma MemWriteRefines(s: Mem, lim: Limits, k: Key, v: bytes)
    requires MemOk(s)
    ensures var r := MemWrite(s, lim, k, v);
      && MemOk(r.0)
      && (r.0.m, r.1) == if Fits(s.m, lim, k, v) then (s.m[k := v], Done) else (s.m, Quota)
  {
    hide Size;
    SizeUpdate(s.m, k, v);
  }

  lemma MemDeleteRefines(s: Mem, k: Key)
    requires MemOk(s)
    ensures k in s.m ==> MemOk(Mem(s.m - {k}, s.bytes - (|k| + |s.m[k]|)))
    ensures k !in s.m ==> s.m - {k} == s.m
  {
    hide Size;
    if k in s.m {
      SizeRemove(s.m, k);
    }
  }

  /** With an exact counter the store decides and changes exactly as the reference does, and keeps it exact. */
  lemma MemRefines(s: Mem, lim: Limits, hash: Hash, op: KvOp)
    requires MemOk(s)
    ensures MemOk(MemStep(s, lim, hash, op).0)
    ensures (MemStep(s, lim, hash, op).0.m, MemStep(s, lim, hash, op).1) == Reference(s.m, lim, hash, op)
  {
    hide Size, MemOk, MemWrite, Fits;
    match op
    case Del(k) => MemDeleteRefines(s, k);
    case Put(k, v) => MemWriteRefines(s, lim, k, v);
    case Cas(k, _, v) => MemWriteRefines(s, lim, k, v);
  }

  // ----- the file-backed store

  /** Memory plus the file, absent until the first successful write. `persisted` says whether this write reaches it. */
  datatype Filed = Filed(mem: Mem, file: Contents)

  ghost predicate FiledOk(s: Filed) {
    MemOk(s.mem) && s.file == s.mem.m
  }

  function FileStep(s: Filed, lim: Limits, hash: Hash, op: KvOp, persisted: bool): (r: (Filed, Verdict)) {
    if op.Del? && op.key !in s.mem.m then (s, Done)
    else
      var (mem, v) := MemStep(s.mem, lim, hash, op);
      if v != Done then (s, v)
      else if persisted then (Filed(mem, mem.m), Done)
      else (s, IoError)
  }

  /** Deleting a key that is not there does not touch the file, so it cannot fail. */
  lemma FileDeleteAbsent(s: Filed, lim: Limits, hash: Hash, k: Key, persisted: bool)
    requires k !in s.mem.m
    ensures FileStep(s, lim, hash, Del(k), persisted) == (s, Done)
  {}

  /** Memory and file agree after every return; only a failed write departs from the reference, and it changes nothing. */
  lemma FileRefines(s: Filed, lim: Limits, hash: Hash, op: KvOp, persisted: bool)
    requires FiledOk(s)
    ensures FiledOk(FileStep(s, lim, hash, op, persisted).0)
    ensures var (t, v) := FileStep(s, lim, hash, op, persisted);
            || (t.mem.m, v) == Reference(s.mem.m, lim, hash, op)
            || (!persisted && v == IoError && t == s && Reference(s.mem.m, lim, hash, op).1 == Done)
  {
    MemRefines(s.mem, lim, hash, op);
    if op.Del? && op.key !in s.mem.m {
      assert s.mem.m - {op.key} == s.mem.m;
    }
  }

  // ----- the SQLite store

  type App = string

  datatype Row = Row(value: bytes, revision: nat)

  datatype Usage = Usage(keys: int, bytes: int)

  /** `kv_entries`, grouped by app, and `kv_usage`. */
  datatype Tables = Tables(apps: set<App>, entries: map<App, map<Key, Row>>, usage: map<App, Usage>)

  const MAX_KEY_LEN := 256

  predicate ValidKey(k: Key) {
    1 <= |k| <= MAX_KEY_LEN
  }

  function RowsOf(t: Tables, app: App): (rows: map<Key, Row>) {
    if app in t.entries then t.entries[app] else map[]
  }

  function UsageOf(t: Tables, app: App): (u: Usage) {
    if app in t.usage then t.usage[app] else Usage(0, 0)
  }

  function AppContents(t: Tables, app: App): (m: Contents)
    ensures m.Keys == RowsOf(t, app).Keys
  {
    map k | k in RowsOf(t, app) :: RowsOf(t, app)[k].value
  }

  /** Accounting is exact for every app, and every stored row has a revision. */
  ghost predicate TablesOk(t: Tables) {
    && (forall a :: UsageOf(t, a) == Usage(|AppContents(t, a)|, Size(AppContents(t, a))))
    && (forall a :: a in t.entries ==> forall k :: k in t.entries[a] ==> t.entries[a][k].revision >= 1)
  }

  function SqlWrite(t: Tables, lim: Limits, hash: Hash, app: App, k: Key, expected: Option<bytes>, v: bytes): (r: (Tables, Verdict)) {
    if !ValidKey(k) then (t, Invalid)
    else if app !in t.apps then (t, NotFound)
    else
      var rows := RowsOf(t, app);
      var existed := k in rows;
      if expected.Some? && (if existed then hash(rows[k].value) else ABSENT_HASH) != expected.value then (t, Conflict)
      else
        var used := UsageOf(t, app);
        var bytes := used.bytes + |v| - (if existed then |rows[k].value| else 0) + (if existed then 0 else |k|);
        var keys := used.keys + (if existed then 0 else 1);
        if !existed && lim.maxKeys > 0 && keys > lim.maxKeys then (t, Quota)
        else if lim.maxBytes > 0 && bytes > lim.maxBytes then (t, Quota)
        else
          var row := Row(v, if existed then rows[k].revision + 1 else 1);
          (t.(entries := t.entries[app := rows[k := row]], usage := t.usage[app := Usage(keys, bytes)]), Done)
  }

  function SqlDelete(t: Tables, app: App, k: Key): (r: (Tables, Verdict)) {
    if !ValidKey(k) then (t, Invalid)
    else
      var rows := RowsOf(t, app);
      if k !in rows then (t, Done)
      else
        var n := |k| + |rows[k].value|;
        var u := UsageOf(t, app);
        (t.(entries := t.entries[app := rows - {k}],
            usage := if app in t.usage && u.keys > 0 && u.bytes >= n then t.usage[app := Usage(u.keys - 1, u.bytes - n)] else t.usage),
         Done)
  }

  function SqlStep(t: Tables, lim: Limits, hash: Hash, app: App, op: KvOp): (r: (Tables, Verdict)) {
    match op
    case Del(k) => SqlDelete(t, app, k)
    case Put(k, v) => SqlWrite(t, lim, hash, app, k, None, v)
    case Cas(k, expected, v) => SqlWrite(t, lim, hash, app, k, Some(expected), v)
  }

  /** Keys of another length are refused, and so are writes of unknown apps; deleting what is not there is fine. Nothing changes. */
  lemma SqlRefuses(t: Tables, lim: Limits, hash: Hash, app: App, op: KvOp)
    ensures !(1 <= |op.key| <= 256) ==> SqlStep(t, lim, hash, app, op) == (t, Invalid)
    ensures 1 <= |op.key| <= 256 && app !in t.apps && !op.Del? ==> SqlStep(t, lim, hash, app, op) == (t, NotFound)
    ensures 1 <= |op.key| <= 256 && op.Del? && op.key !in RowsOf(t, app) ==> SqlStep(t, lim, hash, app, op) == (t, Done)
  {}

  /** A stored row counts its writes from 1; a deleted key starts over. */
  lemma SqlRevision(t: Tables, lim: Limits, hash: Hash, app: App, op: KvOp)
    requires !op.Del? && SqlStep(t, lim, hash, app, op).1 == Done
    ensures var rows, after := RowsOf(t, app), RowsOf(SqlStep(t, lim, hash, app, op).0, app);
      after == rows[op.key := Row(op.value, if op.key in rows then rows[op.key].revision + 1 else 1)]
  {}

  lemma AppWrite(t: Tables, app: App, k: Key, row: Row, u: Usage, other: App)
    ensures var r := t.(entries := t.entries[app := RowsOf(t, app)[k := row]], usage := t.usage[app := u]);
            && (other == app ==> AppContents(r, app) == AppContents(t, app)[k := row.value] && UsageOf(r, app) == u)
            && (other != app ==> AppContents(r, other) == AppContents(t, other) && UsageOf(r, other) == UsageOf(t, other))
  {
  }

  lemma SqlWriteRefines(t: Tables, lim: Limits, hash: Hash, app: App, k: Key, expected: Option<bytes>, v: bytes)
    requires TablesOk(t) && 1 <= |k| <= 256 && app in t.apps
    ensures var (r, verdict) := SqlWrite(t, lim, hash, app, k, expected, v);
            && TablesOk(r)
            && (AppContents(r, app), verdict) ==
               Reference(AppContents(t, app), lim, hash, if expected.None? then Put(k, v) else Cas(k, expected.value, v))
            && forall a :: a != app ==> AppContents(r, a) == AppContents(t, a)
  {
    hide Size, TablesOk, AppContents;
    var m := AppContents(t, app);
    var rows := RowsOf(t, app);
    SizeUpdate(m, k, v);
    assert UsageOf(t, app) == Usage(|m|, Size(m)) by { UsageExact(t, app); }
    ContentsAt(t, app, k);
    if SqlWrite(t, lim, hash, app, k, expected, v).1 == Done {
      StoredRow(t, app, k, Row(v, if k in rows then rows[k].revision + 1 else 1));
    }
  }

  lemma UsageExact(t: Tables, app: App)
    requires TablesOk(t)
    ensures UsageOf(t, app) == Usage(|AppContents(t, app)|, Size(AppContents(t, app)))
  {
  }

  lemma ContentsAt(t: Tables, app: App, k: Key)
    ensures k in AppContents(t, app) <==> k in RowsOf(t, app)
    ensures k in RowsOf(t, app) ==> AppContents(t, app)[k] == RowsOf(t, app)[k].value
  {
  }

  /** Storing a row with the recomputed usage keeps the accounting of every app exact. */
  lemma StoredRow(t: Tables, app: App, k: Key, row: Row)
    requires TablesOk(t) && row.revision >= 1
    ensures var m := AppContents(t, app)[k := row.value];
            var r := t.(entries := t.entries[app := RowsOf(t, app)[k := row]], usage := t.usage[app := Usage(|m|, Size(m))]);
            && TablesOk(r) && AppContents(r, app) == m
            && forall a :: a != app ==> AppContents(r, a) == AppContents(t, a)
  {
    hide Size;
    var m := AppContents(t, app)[k := row.value];
    var u := Usage(|m|, Size(m));
    var r := t.(entries := t.entries[app := RowsOf(t, app)[k := row]], usage := t.usage[app := u]);
    forall a
      ensures a == app ==> AppContents(r, app) == m && UsageOf(r, app) == u
      ensures a != app ==> AppContents(r, a) == AppContents(t, a) && UsageOf(r, a) == UsageOf(t, a)
    {
      AppWrite(t, app, k, row, u, a);
    }
  }

  lemma AppDelete(t: Tables, app: App, k: Key, u: Usage, other: App)
    ensures var r := t.(entries := t.entries[app := RowsOf(t, app) - {k}], usage := t.usage[app := u]);
            && (other == app ==> AppContents(r, app) == AppContents(t, app) - {k} && UsageOf(r, app) == u)
            && (other != app ==> AppContents(r, other) == AppContents(t, other) && UsageOf(r, other) == UsageOf(t, other))
  {
  }

  /** Dropping a row with the recomputed usage keeps the accounting of every app exact. */
  lemma DroppedRow(t: Tables, app: App, k: Key)
    requires TablesOk(t)
    ensures var m := AppContents(t, app) - {k};
            var r := t.(entries := t.entries[app := RowsOf(t, app) - {k}], usage := t.usage[app := Usage(|m|, Size(m))]);
            && TablesOk(r) && AppContents(r, app) == m
            && forall a :: a != app ==> AppContents(r, a) == AppContents(t, a)
  {
    var m := AppContents(t, app) - {k};
    var u := Usage(|m|, Size(m));
    var r := t.(entries := t.entries[app := RowsOf(t, app) - {k}], usage := t.usage[app := u]);
    assert forall a :: a in r.entries ==> forall x :: x in r.entries[a] ==> r.entries[a][x].revision >= 1;
    hide Size, AppContents, RowsOf, UsageOf;
    forall a
      ensures a == app ==> AppContents(r, app) == m && UsageOf(r, app) == u
      ensures a != app ==> AppContents(r, a) == AppContents(t, a) && UsageOf(r, a) == UsageOf(t, a)
    {
      AppDelete(t, app, k, u, a);
    }
  }

  /** With an exact usage row the guard of the update never keeps it from being applied. */
  lemma DeleteForm(t: Tables, app: App, k: Key)
    requires ValidKey(k) && k in RowsOf(t, app)
    requires UsageOf(t, app).keys > 0 && UsageOf(t, app).bytes >= |k| + |RowsOf(t, app)[k].value|
    ensures var u := UsageOf(t, app);
      SqlDelete(t, app, k) == (t.(entries := t.entries[app := RowsOf(t, app) - {k}],
                                  usage := t.usage[app := Usage(u.keys - 1, u.bytes - (|k| + |RowsOf(t, app)[k].value|))]), Done)
  {
  }

  lemma SqlDeleteRefines(t: Tables, app: App, k: Key)
    requires TablesOk(t) && 1 <= |k| <= 256
    ensures var (r, verdict) := SqlDelete(t, app, k);
            && TablesOk(r) && verdict == Done && AppContents(r, app) == AppContents(t, app) - {k}
            && forall a :: a != app ==> AppContents(r, a) == AppContents(t, a)
  {
    hide Size, TablesOk, AppContents;
    var m := AppContents(t, app);
    UsageExact(t, app);
    ContentsAt(t, app, k);
    if k in RowsOf(t, app) {
      SizeRemove(m, k);
      Smaller(m, k);
      DroppedRow(t, app, k);
      DeleteForm(t, app, k);
      hide SqlDelete, UsageOf, RowsOf;
    } else {
      assert m - {k} == m;
    }
  }

  lemma AppsStay(t: Tables, lim: Limits, hash: Hash, app: App, op: KvOp)
    ensures SqlStep(t, lim, hash, app, op).0.apps == t.apps
  {}

  /** For every app that exists and every key the guest layer lets through, the SQLite store is the reference store. */
  lemma SqlRefines(t: Tables, lim: Limits, hash: Hash, app: App, op: KvOp)
    requires TablesOk(t) && 1 <= |op.key| <= 256 && app in t.apps
    ensures var (r, verdict) := SqlStep(t, lim, hash, app, op);
            && TablesOk(r) && (AppContents(r, app), verdict) == Reference(AppContents(t, app), lim, hash, op)
            && r.apps == t.apps && forall a :: a != app ==> AppContents(r, a) == AppContents(t, a)
  {
    AppsStay(t, lim, hash, app, op);
    hide TablesOk, AppContents, Size, Fits, SqlWrite, SqlDelete;
    match op
    case Del(k) => SqlDeleteRefines(t, app, k);
    case Put(k, v) => SqlWriteRefines(t, lim, hash, app, k, None, v);
    case Cas(k, expected, v) => SqlWriteRefines(t, lim, hash, app, k, Some(expected), v);
  }

  // ----- the three stores side by side

  function RunMem(s: Mem, lim: Limits, hash: Hash, ops: seq<KvOp>): (r: (Mem, seq<Verdict>))
    decreases |ops|
  {
    if ops == [] then (s, [])
    else
      var (t, v) := MemStep(s, lim, hash, ops[0]);
      var rest := RunMem(t, lim, hash, ops[1..]);
      (rest.0, [v] + rest.1)
  }

  function RunFile(s: Filed, lim: Limits, hash: Hash, ops: seq<KvOp>): (r: (Filed, seq<Verdict>))
    decreases |ops|
  {
    if ops == [] then (s, [])
    else
      var (t, v) := FileStep(s, lim, hash, ops[0], true);
      var rest := RunFile(t, lim, hash, ops[1..]);
      (rest.0, [v] + rest.1)
  }

  function RunSql(t: Tables, lim: Limits, hash: Hash, app: App, ops: seq<KvOp>): (r: (Tables, seq<Verdict>))
    decreases |ops|
  {
    if ops == [] then (t, [])
    else
      var (u, v) := SqlStep(t, lim, hash, app, ops[0]);
      var rest := RunSql(u, lim, hash, app, ops[1..]);
      (rest.0, [v] + rest.1)
  }

  /** Started with equal contents and driven by the same operations, the three stores answer and end up alike. */
  lemma {:induction false} StoresAgree(s: Mem, f: Filed, t: Tables, lim: Limits, hash: Hash, app: App, ops: seq<KvOp>)
    requires MemOk(s) && FiledOk(f) && TablesOk(t) && app in t.apps
    requires s.m == f.mem.m == AppContents(t, app)
    requires forall i :: 0 <= i < |ops| ==> 1 <= |ops[i].key| <= 256
    ensures var a := RunMem(s, lim, hash, ops);
            var b := RunFile(f, lim, hash, ops);
            var c := RunSql(t, lim, hash, app, ops);
            a.1 == b.1 == c.1 && a.0.m == b.0.mem.m == AppContents(c.0, app) && b.0.file == b.0.mem.m
    decreases |ops|
  {
    hide MemStep, FileStep, SqlStep, Reference, AppContents, TablesOk, MemOk;
    if ops != [] {
      MemRefines(s, lim, hash, ops[0]);
      FileRefines(f, lim, hash, ops[0], true);
      SqlRefines(t, lim, hash, app, ops[0]);
      StoresAgree(MemStep(s, lim, hash, ops[0]).0, FileStep(f, lim, hash, ops[0], true).0,
                  SqlStep(t, lim, hash, app, ops[0]).0, lim, hash, app, ops[1..]);
    }
  }

  const MAX_LIST: nat := 256

  /** And after any such run they list alike: sorting what was collected and an ordered query give the one listing there is. */
  lemma ListsAgree(s: Mem, f: Filed, t: Tables, lim: Limits, hash: Hash, app: App, ops: seq<KvOp>,
                   prefix: bytes, limit: nat, a: seq<Key>, b: seq<Key>, c: seq<Key>)
    requires MemOk(s) && FiledOk(f) && TablesOk(t) && app in t.apps
    requires s.m == f.mem.m == AppContents(t, app)
    requires forall i :: 0 <= i < |ops| ==> 1 <= |ops[i].key| <= 256
    requires IsListing(RunMem(s, lim, hash, ops).0.m.Keys, prefix, limit, a)
    requires IsListing(RunFile(f, lim, hash, ops).0.mem.m.Keys, prefix, limit, b)
    requires IsListing(AppContents(RunSql(t, lim, hash, app, ops).0, app).Keys, prefix, limit, c)
    ensures a == b == c
  {
    hide RunMem, RunFile, RunSql, AppContents, TablesOk, MemOk, IsListing;
    StoresAgree(s, f, t, lim, hash, app, ops);
    var keys := RunMem(s, lim, hash, ops).0.m.Keys;
    ListingUnique(keys, prefix, limit, a, b);
    ListingUnique(keys, prefix, limit, a, c);
  }

  // ----- the store objects

  class MemStore {
    var m: Contents
    var bytes: int
    const lim: Limits

    ghost function View(): (s: Mem)
      reads this
    {
      Mem(m, bytes)
    }

    ghost predicate Valid()
      reads this
    {
      MemOk(View())
    }

    constructor (maxKeys: int, maxBytes: int)
      ensures Valid() && m == map[] && lim == Limits(maxKeys, maxBytes)
    {
      m, bytes, lim := map[], 0, Limits(maxKeys, maxBytes);
    }

    method Get(key: Key) returns (value: bytes, found: bool)
      ensures found <==> key in m
      ensures found ==> value == m[key]
    {
      found := key in m;
      value := if found then m[key] else [];
    }

    /** At most `limit` keys with the prefix, in byte order; an error for a limit out of range. */
    method List(prefix: bytes, limit: int) returns (r: Option<seq<Key>>)
      ensures r.None? <==> limit < 1 || limit > MAX_LIST
      ensures r.Some? ==> IsListing(m.Keys, prefix, limit, r.value)
    {
      if limit < 1 || limit > MAX_LIST {
        return None;
      }
      var ks := CollectSortCut(m.Keys, prefix, limit);
      r := Some(ks);
    }

    method Set(key: Key, value: bytes) returns (v: Verdict)
      requires Valid()
      modifies this
      ensures Valid() && (View(), v) == MemStep(old(View()), lim, (b: bytes) => [], Put(key, value))
    {
      MemRefines(View(), lim, (b: bytes) => [], Put(key, value));
      var existed := key in m;
      var newBytes := bytes + |value| - (if existed then |m[key]| else 0);
      if !existed {
        newBytes := newBytes + |key|;
        if lim.maxKeys > 0 && |m| + 1 > lim.maxKeys {
          return Quota;
        }
      }
      if lim.maxBytes > 0 && newBytes > lim.maxBytes {
        return Quota;
      }
      m, bytes := m[key := value], newBytes;
      return Done;
    }

    method Delete(key: Key)
      requires Valid()
      modifies this
      ensures Valid() && View() == MemStep(old(View()), lim, (b: bytes) => [], Del(key)).0
    {
      MemRefines(View(), lim, (b: bytes) => [], Del(key));
      if key in m {
        bytes := bytes - (|key| + |m[key]|);
        m := m - {key};
      }
    }

    method CompareAndSwap(hash: Hash, key: Key, expected: bytes, value: bytes) returns (v: Verdict)
      requires Valid()
      modifies this
      ensures Valid() && (View(), v) == MemStep(old(View()), lim, hash, Cas(key, expected, value))
    {
      MemRefines(View(), lim, hash, Cas(key, expected, value));
      var actual := ABSENT_HASH;
      if key in m {
        actual := hash(m[key]);
      }
      if actual != expected {
        return Conflict;
      }
      v := Set(key, value);
    }
  }

  lemma SizeEmpty()
    ensures Size(map[]) == 0
  {
  }

  /** The loading loop of `NewFileStore`, which counts as it fills the map. */
  method CountBytes(stored: Contents) returns (total: int)
    ensures total == Size(stored)
  {
    hide Size;
    var loaded: Contents := map[];
    total := 0;
    SizeEmpty();
    var todo := stored.Keys;
    while todo != {}
      invariant todo <= stored.Keys && loaded == stored - todo
      invariant total == Size(loaded)
      decreases |todo|
    {
      var k :| k in todo;
      SizeUpdate(loaded, k, stored[k]);
      loaded, total := loaded[k := stored[k]], total + |k| + |stored[k]|;
      todo := todo - {k};
    }
    assert loaded == stored;
  }

  /** What each step of persisting does: encoding, creating the directory, writing, renaming. */
  datatype FileIo = FileIo(marshals: bool, makesDir: bool, writes: bool, renames: bool)

  predicate Persists(io: FileIo) {
    io.marshals && io.makesDir && io.writes && io.renames
  }

  datatype Temporary = Whole(contents: Contents) | Truncated

  /** `FileStore`: the same map with a file behind it and rollback when the file cannot be written. */
  class FileStore {
    var m: Contents
    var bytes: int
    var file: Contents
    var temporary: Option<Temporary>
    const lim: Limits

    ghost function View(): (s: Filed)
      reads this
    {
      Filed(Mem(m, bytes), file)
    }

    ghost predicate Valid()
      reads this
    {
      FiledOk(View())
    }

    /** Opens the store on what the file holds, counting as it loads. */
    constructor (stored: Contents, maxKeys: int, maxBytes: int)
      ensures Valid() && m == stored && lim == Limits(maxKeys, maxBytes)
    {
      lim := Limits(maxKeys, maxBytes);
      file, temporary := stored, None;
      var total := CountBytes(stored);
      m, bytes := stored, total;
    }

    /**
     Writes the snapshot to a temporary file and renames it over the store's file. A
     failed write may leave a truncated temporary file; whatever happens, the deferred
     removal leaves none.
     */
    method Persist(io: FileIo) returns (ok: bool)
      modifies this`file, this`temporary
      ensures ok == Persists(io)
      ensures file == if ok then m else old(file)
      ensures temporary == if io.marshals && io.makesDir then None else old(temporary)
    {
      var data := m;
      if !io.marshals || !io.makesDir {
        return false;
      }
      temporary := Some(if io.writes then Whole(data) else Truncated);
      ok := false;
      if io.writes && io.renames {
        file, temporary := data, None;
        ok := true;
      }
      temporary := None;
    }

    /** Stores the entry and persists it, restoring the exact previous entry and count if that fails. */
    method StoreEntry(key: Key, value: bytes, newBytes: int, io: FileIo) returns (v: Verdict)
      modifies this
      ensures v == if Persists(io) then Done else IoError
      ensures View() == if Persists(io) then Filed(Mem(old(m)[key := value], newBytes), old(m)[key := value])
                        else old(View())
    {
      var existed := key in m;
      var previous := if existed then m[key] else [];
      var previousBytes := bytes;
      m, bytes := m[key := value], newBytes;
      var ok := Persist(io);
      if !ok {
        m := if existed then m[key := previous] else m - {key};
        bytes := previousBytes;
        assert m == old(m);
        return IoError;
      }
      return Done;
    }

    method Set(key: Key, value: bytes, io: FileIo) returns (v: Verdict)
      requires Valid()
      modifies this
      ensures Valid()
      ensures (View(), v) == FileStep(old(View()), lim, (b: bytes) => [], Put(key, value), Persists(io))
    {
      hide Size, Reference, MemOk;
      FileRefines(View(), lim, (b: bytes) => [], Put(key, value), Persists(io));
      var existed := key in m;
      var newBytes := bytes + |value| - (if existed then |m[key]| else 0);
      if !existed {
        newBytes := newBytes + |key|;
        if lim.maxKeys > 0 && |m| + 1 > lim.maxKeys {
          return Quota;
        }
      }
      if lim.maxBytes > 0 && newBytes > lim.maxBytes {
        return Quota;
      }
      v := StoreEntry(key, value, newBytes, io);
    }

    method CompareAndSwap(hash: Hash, key: Key, expected: bytes, value: bytes, io: FileIo) returns (v: Verdict)
      requires Valid()
      modifies this
      ensures Valid()
      ensures (View(), v) == FileStep(old(View()), lim, hash, Cas(key, expected, value), Persists(io))
    {
      hide Size, Reference, MemOk;
      FileRefines(View(), lim, hash, Cas(key, expected, value), Persists(io));
      if CurrentHash(m, hash, key) != expected {
        return Conflict;
      }
      var r := MemWrite(Mem(m, bytes), lim, key, value);
      if r.1 != Done {
        return r.1;
      }
      v := StoreEntry(key, value, r.0.bytes, io);
    }

    method Delete(key: Key, io: FileIo) returns (v: Verdict)
      requires Valid()
      modifies this
      ensures Valid()
      ensures (View(), v) == FileStep(old(View()), lim, (b: bytes) => [], Del(key), Persists(io))
    {
      FileRefines(View(), lim, (b: bytes) => [], Del(key), Persists(io));
      if key !in m {
        return Done;
      }
      var previous, previousBytes := m[key], bytes;
      m, bytes := m - {key}, bytes - (|key| + |m[key]|);
      var ok := Persist(io);
      if !ok {
        m, bytes := m[key := previous], previousBytes;
        assert m == old(m);
        return IoError;
      }
      return Done;
    }

    /** At most `limit` keys with the prefix, in byte order; an error for a limit out of range. */
    method List(prefix: bytes, limit: int) returns (r: Option<seq<Key>>)
      ensures r.None? <==> limit < 1 || limit > MAX_LIST
      ensures r.Some? ==> IsListing(m.Keys, prefix, limit, r.value)
    {
      if limit < 1 || limit > MAX_LIST {
        return None;
      }
      var ks := CollectSortCut(m.Keys, prefix, limit);
      r := Some(ks);
    }
  }

  /** The repository's KV tables; each method is one transaction. */
  class SqliteKv {
    var tables: Tables
    const lim: Limits

    ghost predicate Valid()
      reads this
    {
      TablesOk(tables)
    }

    constructor (apps: set<App>, maxKeys: int, maxBytes: int)
      ensures Valid() && tables == Tables(apps, map[], map[])
    {
      tables, lim := Tables(apps, map[], map[]), Limits(maxKeys, maxBytes);
    }

    method Write(hash: Hash, app: App, key: Key, expected: Option<bytes>, value: bytes) returns (v: Verdict)
      requires Valid()
      modifies this
      ensures Valid() && (tables, v) == SqlWrite(old(tables), lim, hash, app, key, expected, value)
    {
      hide TablesOk, AppContents, Size, Reference, RowsOf, UsageOf;
      if ValidKey(key) && app in tables.apps {
        SqlWriteRefines(tables, lim, hash, app, key, expected, value);
      }
      if |key| == 0 || |key| > MAX_KEY_LEN {
        return Invalid;
      }
      if app !in tables.apps {
        return NotFound;
      }
      var rows := RowsOf(tables, app);
      var existed := key in rows;
      var previous, revision := [], 1;
      if existed {
        previous, revision := rows[key].value, rows[key].revision + 1;
      }
      if expected.Some? {
        var actual := if existed then hash(previous) else ABSENT_HASH;
        if actual != expected.value {
          return Conflict;
        }
      }
      var used := UsageOf(tables, app);
      var newBytes, newKeys := used.bytes + |value| - |previous|, used.keys;
      if !existed {
        newBytes, newKeys := newBytes + |key|, newKeys + 1;
        if lim.maxKeys > 0 && newKeys > lim.maxKeys {
          return Quota;
        }
      }
      if lim.maxBytes > 0 && newBytes > lim.maxBytes {
        return Quota;
      }
      tables := tables.(entries := tables.entries[app := rows[key := Row(value, revision)]],
                        usage := tables.usage[app := Usage(newKeys, newBytes)]);
      return Done;
    }

    /** Looks the row up, deletes it, and takes its share off the usage row. */
    method Delete(app: App, key: Key) returns (v: Verdict)
      requires Valid()
      modifies this
      ensures Valid() && (tables, v) == SqlDelete(old(tables), app, key)
      ensures v == Done ==> AppContents(tables, app) == AppContents(old(tables), app) - {key}
      ensures forall a :: a != app ==> AppContents(tables, a) == AppContents(old(tables), a)
    {
      hide TablesOk, AppContents, Size;
      if |key| == 0 || |key| > MAX_KEY_LEN {
        return Invalid;
      }
      SqlDeleteRefines(tables, app, key);
      var rows := RowsOf(tables, app);
      if key !in rows {
        return Done;
      }
      var size := |key| + |rows[key].value|;
      tables := tables.(entries := tables.entries[app := rows - {key}]);
      if app in tables.usage && tables.usage[app].keys > 0 && tables.usage[app].bytes >= size {
        var used := tables.usage[app];
        tables := tables.(usage := tables.usage[app := Usage(used.keys - 1, used.bytes - size)]);
      }
      return Done;
    }

    /** The ordered query over one app's rows; a prefix longer than any key is refused too. */
    method List(app: App, prefix: bytes, limit: int) returns (r: Option<seq<Key>>)
      ensures r.None? <==> limit < 1 || limit > MAX_LIST || |prefix| > MAX_KEY_LEN
      ensures r.Some? ==> IsListing(AppContents(tables, app).Keys, prefix, limit, r.value)
    {
      if limit < 1 || limit > MAX_LIST || |prefix| > MAX_KEY_LEN {
        return None;
      }
      var ks := OrderedRows(RowsOf(tables, app).Keys, prefix, limit);
      r := Some(ks);
    }
  }
}
