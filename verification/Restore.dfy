/**
 Crash-safe restore: a commit-intent journal, three component swaps by rename, and
 a roll-forward recovery. The file system is a map from paths to nodes whose
 renames and removals are atomic; a budget of mutations says where the process is
 interrupted, so a statement for every budget is a statement for every crash point.
 */
module Restore {
  import opened Results

  type Path = string

  /** `Partial` is a file whose writing was interrupted; its bytes do not parse. */
  datatype Node = File(data: string) | Dir(tree: string) | Link | Partial | JournalFile(j: Journal)

  datatype Op = Op(name: string, target: Path, staged: Path, backup: Path, done: bool)

  datatype Journal = Journal(version: nat, ops: seq<Op>)

  const FORMAT_VERSION: nat := 1

  type Fs = map<Path, Node>

  datatype Error = UnsafePath | Corrupt | JournalExists | Exists | NotDirectory

  datatype Status = Ok | Interrupted | Failed(err: Error)

  /** A file system and the number of mutations left before the interruption. */
  datatype Disk = Disk(fs: Fs, budget: nat)

  datatype Out = Out(disk: Disk, status: Status)

  function Lookup(fs: Fs, p: Path): (n: Option<Node>) {
    if p in fs then Some(fs[p]) else None
  }

  function Mutate(d: Disk, fs: Fs): (r: Out) {
    if d.budget == 0 then Out(d, Interrupted) else Out(Disk(fs, d.budget - 1), Ok)
  }

  function Moved(fs: Fs, a: Path, b: Path): (r: Fs)
    requires a in fs
  {
    (fs - {a})[b := fs[a]]
  }

  /** `os.Rename`: never replaces a directory, and never replaces a file by a directory. */
  function Rename(d: Disk, a: Path, b: Path): (r: Out)
    requires a in d.fs
  {
    if b in d.fs && d.fs[b].Dir? then Out(d, Failed(Exists))
    else if b in d.fs && d.fs[a].Dir? then Out(d, Failed(NotDirectory))
    else Mutate(d, Moved(d.fs, a, b))
  }

  /** `replaceOperation`: move the target aside unless a backup exists, then move the staged component in. */
  function Replace(d: Disk, op: Op): (r: Out) {
    var targetExists := op.target in d.fs;
    if targetExists && d.fs[op.target].Link? then Out(d, Failed(UnsafePath))
    else if op.staged !in d.fs then Out(d, if targetExists then Ok else Failed(Corrupt))
    else if !targetExists || op.backup in d.fs then Rename(d, op.staged, op.target)
    else
      var aside := Rename(d, op.target, op.backup);
      if aside.status != Ok then aside
      else if op.staged !in aside.disk.fs then Out(aside.disk, Failed(Corrupt))
      else Rename(aside.disk, op.staged, op.target)
  }

  function TmpOf(path: Path): (tmp: Path) {
    path + ".tmp"
  }

  function RemoveIfPresent(d: Disk, p: Path): (r: Out) {
    if p in d.fs then Mutate(d, d.fs - {p}) else Out(d, Ok)
  }

  /** `writeJournal`: a fresh temporary file, written, then renamed over the journal. */
  function Save(d: Disk, path: Path, j: Journal): (r: Out) {
    var tmp := TmpOf(path);
    var cleared := RemoveIfPresent(d, tmp);
    if cleared.status != Ok then cleared
    else
      var created := Mutate(cleared.disk, cleared.disk.fs[tmp := Partial]);
      if created.status != Ok then created
      else
        var written := Mutate(created.disk, created.disk.fs[tmp := JournalFile(j)]);
        if written.status != Ok then written
        else Rename(written.disk, tmp, path)
  }

  function MarkDone(j: Journal, i: nat): (r: Journal)
    requires i < |j.ops|
    ensures |r.ops| == |j.ops|
  {
    j.(ops := j.ops[i := j.ops[i].(done := true)])
  }

  /** `applyJournal` from operation `i` on. */
  function Apply(d: Disk, path: Path, j: Journal, i: nat): (r: Out)
    requires i <= |j.ops|
    decreases |j.ops| - i
  {
    if i == |j.ops| then RemoveIfPresent(d, path)
    else if j.ops[i].done then Apply(d, path, j, i + 1)
    else
      var swapped := Replace(d, j.ops[i]);
      if swapped.status != Ok then swapped
      else
        var saved := Save(swapped.disk, path, MarkDone(j, i));
        if saved.status != Ok then saved
        else Apply(saved.disk, path, MarkDone(j, i), i + 1)
  }

  function Recover(d: Disk, path: Path): (r: Out) {
    if path !in d.fs then Out(d, Ok)
    else match d.fs[path]
      case JournalFile(j) =>
        if j.version != FORMAT_VERSION then Out(d, Failed(Corrupt)) else Apply(d, path, j, 0)
      case _ => Out(d, Failed(Corrupt))
  }

  /** Copying the bundle into the staging area, one component after the other. */
  function Stage(d: Disk, ops: seq<Op>, news: seq<Node>, i: nat): (r: Out)
    requires |news| == |ops| && i <= |ops|
    decreases |ops| - i
  {
    if i == |ops| then Out(d, Ok)
    else
      var created := Mutate(d, d.fs[ops[i].staged := Partial]);
      if created.status != Ok then created
      else
        var copied := Mutate(created.disk, created.disk.fs[ops[i].staged := news[i]]);
        if copied.status != Ok then copied else Stage(copied.disk, ops, news, i + 1)
  }

  /** `Restore` of an already verified bundle with components `news`. */
  function RestoreRun(d: Disk, path: Path, j: Journal, news: seq<Node>): (r: Out)
    requires |news| == |j.ops|
  {
    if path in d.fs then Out(d, Failed(JournalExists))
    else
      var staged := Stage(d, j.ops, news, 0);
      if staged.status != Ok then staged
      else
        var created := Mutate(staged.disk, staged.disk.fs[path := Partial]);
        if created.status != Ok then created
        else
          var written := Mutate(created.disk, created.disk.fs[path := JournalFile(j)]);
          if written.status != Ok then written else Apply(written.disk, path, j, 0)
  }

  // ----- the states a crash can leave behind

  /** What one component was, what it becomes, and what an earlier restore left at its backup path. */
  datatype Component = Component(orig: Option<Node>, bundled: Node, leftover: Option<Node>)

  /** A bundle holds files and directories, never links. */
  predicate Plain(c: Component) {
    !c.bundled.Link?
  }

  /** The live original is not a link, and if it cannot be moved aside no directory is involved. */
  predicate Swappable(c: Component) {
    c.orig != Some(Link) && (c.orig.Some? && c.leftover.Some? ==> !c.orig.value.Dir? && !c.bundled.Dir?)
  }

  /** What the backup path holds after the swap: a leftover stays, and then the original is lost. */
  function Kept(c: Component): (n: Option<Node>) {
    if c.leftover.Some? then c.leftover else c.orig
  }

  predicate Before(fs: Fs, op: Op, c: Component) {
    Lookup(fs, op.target) == c.orig && Lookup(fs, op.staged) == Some(c.bundled) && Lookup(fs, op.backup) == c.leftover
  }

  predicate Aside(fs: Fs, op: Op, c: Component) {
    && c.orig.Some? && c.leftover.None? && op.target !in fs
    && Lookup(fs, op.staged) == Some(c.bundled) && Lookup(fs, op.backup) == c.orig
  }

  /** The bundle's component is live, and the backup holds what the swap keeps. */
  predicate After(fs: Fs, op: Op, c: Component) {
    Lookup(fs, op.target) == Some(c.bundled) && op.staged !in fs && Lookup(fs, op.backup) == Kept(c)
  }

  predicate InPhase(fs: Fs, op: Op, c: Component) {
    Before(fs, op, c) || (Swappable(c) && (Aside(fs, op, c) || After(fs, op, c)))
  }

  predicate AllSwappable(cs: seq<Component>) {
    forall i :: 0 <= i < |cs| ==> Swappable(cs[i])
  }

  function PathsOf(op: Op): (ps: set<Path>) {
    {op.target, op.staged, op.backup}
  }

  /** No two of the paths involved coincide. */
  predicate Apart(ops: seq<Op>, path: Path) {
    && (forall i :: 0 <= i < |ops| ==>
          ops[i].target != ops[i].staged && ops[i].target != ops[i].backup && ops[i].staged != ops[i].backup)
    && (forall i :: 0 <= i < |ops| ==> path !in PathsOf(ops[i]) && TmpOf(path) !in PathsOf(ops[i]))
    && (forall i, k :: 0 <= i < k < |ops| ==> PathsOf(ops[i]) !! PathsOf(ops[k]))
  }

  /** The journal as written on disk differs from the intent only in its done flags. */
  predicate SamePlan(a: seq<Op>, b: seq<Op>) {
    |a| == |b| && forall i :: 0 <= i < |a| ==> a[i].(done := b[i].done) == b[i]
  }

  /** A committed restore under way: a complete journal, every component in some phase, done ones swapped. */
  ghost predicate UnderWay(fs: Fs, path: Path, j: Journal, cs: seq<Component>) {
    && |cs| == |j.ops| && Apart(j.ops, path) && j.version == FORMAT_VERSION
    && Lookup(fs, path) == Some(JournalFile(j))
    && (forall i :: 0 <= i < |cs| ==> Plain(cs[i]) && InPhase(fs, j.ops[i], cs[i]))
    && (forall i :: 0 <= i < |cs| && j.ops[i].done ==> After(fs, j.ops[i], cs[i]))
  }

  /** A finished restore: every component swapped and the journal gone. */
  ghost predicate Complete(fs: Fs, path: Path, ops: seq<Op>, cs: seq<Component>) {
    |cs| == |ops| && path !in fs && forall i :: 0 <= i < |cs| ==> After(fs, ops[i], cs[i])
  }

  /** Under way with some journal of the same plan, or finished. */
  ghost predicate Committed(fs: Fs, path: Path, ops: seq<Op>, cs: seq<Component>) {
    Complete(fs, path, ops, cs)
    || exists j: Journal :: SamePlan(ops, j.ops) && UnderWay(fs, path, j, cs)
  }

  ghost predicate SameExcept(a: Fs, b: Fs, ps: set<Path>) {
    forall p :: p !in ps ==> Lookup(a, p) == Lookup(b, p)
  }

  /**
   One swap, interrupted anywhere, leaves its component in a recoverable phase and
   touches nothing else; it fails if and only if the component is not swappable, and
   then changes nothing.
   */
  lemma ReplaceKeeps(d: Disk, op: Op, c: Component)
    requires InPhase(d.fs, op, c) && Plain(c)
    requires op.target != op.staged && op.target != op.backup && op.staged != op.backup
    ensures var r := Replace(d, op);
            && InPhase(r.disk.fs, op, c) && SameExcept(d.fs, r.disk.fs, PathsOf(op))
            && (r.status.Failed? <==> !Swappable(c)) && (r.status.Failed? ==> r.disk == d)
            && (r.status == Ok ==> After(r.disk.fs, op, c))
            && (d.budget >= 2 && Swappable(c) ==> r.status == Ok) && r.disk.budget + 2 >= d.budget
  {
  }

  lemma SaveKeeps(d: Disk, path: Path, j: Journal)
    requires path in d.fs && d.fs[path].JournalFile?
    ensures var r := Save(d, path, j);
            && SameExcept(d.fs, r.disk.fs, {path, TmpOf(path)})
            && !r.status.Failed?
            && Lookup(r.disk.fs, path) == (if r.status == Ok then Some(JournalFile(j)) else Lookup(d.fs, path))
            && (d.budget >= 4 ==> r.status == Ok) && r.disk.budget + 4 >= d.budget
  {
    assert path != TmpOf(path);
  }

  lemma PhaseFrame(a: Fs, b: Fs, op: Op, c: Component, ps: set<Path>)
    requires SameExcept(a, b, ps) && PathsOf(op) !! ps
    ensures Before(a, op, c) == Before(b, op, c) && Aside(a, op, c) == Aside(b, op, c) && After(a, op, c) == After(b, op, c)
  {
    assert op.target in PathsOf(op) && op.staged in PathsOf(op) && op.backup in PathsOf(op);
    assert Lookup(a, op.target) == Lookup(b, op.target);
    assert Lookup(a, op.staged) == Lookup(b, op.staged);
    assert Lookup(a, op.backup) == Lookup(b, op.backup);
  }

  lemma UnderWayReplace(d: Disk, path: Path, j: Journal, cs: seq<Component>, i: nat)
    requires UnderWay(d.fs, path, j, cs) && i < |cs|
    ensures var r := Replace(d, j.ops[i]);
            UnderWay(r.disk.fs, path, j, cs) && (r.status == Ok ==> After(r.disk.fs, j.ops[i], cs[i]))
  {
    var op := j.ops[i];
    ReplaceKeeps(d, op, cs[i]);
    var fs := Replace(d, op).disk.fs;
    assert Lookup(fs, path) == Lookup(d.fs, path) by { assert path !in PathsOf(op); }
    forall k | 0 <= k < |cs|
      ensures InPhase(fs, j.ops[k], cs[k])
      ensures j.ops[k].done ==> After(fs, j.ops[k], cs[k])
    {
      if k != i {
        assert PathsOf(j.ops[k]) !! PathsOf(op);
        PhaseFrame(d.fs, fs, j.ops[k], cs[k], PathsOf(op));
      } else if op.done {
        assert Replace(d, op) == Out(d, Ok);
      }
    }
  }

  lemma UnderWaySave(d: Disk, path: Path, j: Journal, cs: seq<Component>, i: nat)
    requires UnderWay(d.fs, path, j, cs) && i < |cs| && After(d.fs, j.ops[i], cs[i])
    ensures var r := Save(d, path, MarkDone(j, i));
            UnderWay(r.disk.fs, path, if r.status == Ok then MarkDone(j, i) else j, cs)
  {
    SaveKeeps(d, path, MarkDone(j, i));
    var fs := Save(d, path, MarkDone(j, i)).disk.fs;
    var k' := MarkDone(j, i);
    forall k | 0 <= k < |cs|
      ensures PathsOf(k'.ops[k]) == PathsOf(j.ops[k])
      ensures Before(fs, j.ops[k], cs[k]) == Before(d.fs, j.ops[k], cs[k])
      ensures Aside(fs, j.ops[k], cs[k]) == Aside(d.fs, j.ops[k], cs[k])
      ensures After(fs, j.ops[k], cs[k]) == After(d.fs, j.ops[k], cs[k])
    {
      assert path !in PathsOf(j.ops[k]) && TmpOf(path) !in PathsOf(j.ops[k]);
      PhaseFrame(d.fs, fs, j.ops[k], cs[k], {path, TmpOf(path)});
    }
  }

  lemma SamePlanMark(ops: seq<Op>, j: Journal, i: nat)
    requires SamePlan(ops, j.ops) && i < |ops|
    ensures SamePlan(ops, MarkDone(j, i).ops)
  {
  }

  lemma CompleteAfterRemove(d: Disk, path: Path, j: Journal, cs: seq<Component>)
    requires UnderWay(d.fs, path, j, cs) && forall k :: 0 <= k < |cs| ==> j.ops[k].done
    ensures Complete(d.fs - {path}, path, j.ops, cs)
  {
    forall k | 0 <= k < |cs|
      ensures After(d.fs - {path}, j.ops[k], cs[k])
    {
      assert path !in PathsOf(j.ops[k]);
      PhaseFrame(d.fs, d.fs - {path}, j.ops[k], cs[k], {path});
    }
  }

  lemma CompletePlan(fs: Fs, path: Path, ops: seq<Op>, j: Journal, cs: seq<Component>)
    requires SamePlan(ops, j.ops) && Complete(fs, path, j.ops, cs)
    ensures Complete(fs, path, ops, cs)
  {
    forall k | 0 <= k < |cs|
      ensures After(fs, ops[k], cs[k])
    {
      assert ops[k].(done := j.ops[k].done) == j.ops[k];
      assert After(fs, j.ops[k], cs[k]);
    }
  }

  /** Rolling a committed journal forward: still committed wherever it stops, finished when it reports success. */
  lemma {:induction false} ApplyKeeps(d: Disk, path: Path, ops: seq<Op>, j: Journal, cs: seq<Component>, i: nat)
    requires UnderWay(d.fs, path, j, cs) && SamePlan(ops, j.ops) && i <= |cs|
    requires forall k :: 0 <= k < i ==> j.ops[k].done
    ensures var r := Apply(d, path, j, i);
            && Committed(r.disk.fs, path, ops, cs)
            && (r.status == Ok ==> Complete(r.disk.fs, path, ops, cs) && AllSwappable(cs))
            && (AllSwappable(cs) ==> !r.status.Failed?)
            && (AllSwappable(cs) && d.budget >= 6 * (|cs| - i) + 1 ==> r.status == Ok)
    decreases |cs| - i
  {
    if i == |cs| {
      DoneAreSwappable(d.fs, path, j, cs);
      CompleteAfterRemove(d, path, j, cs);
      CompletePlan(d.fs - {path}, path, ops, j, cs);
    } else if j.ops[i].done {
      ApplyKeeps(d, path, ops, j, cs, i + 1);
    } else {
      ApplyOne(d, path, ops, j, cs, i);
    }
  }

  lemma DoneAreSwappable(fs: Fs, path: Path, j: Journal, cs: seq<Component>)
    requires UnderWay(fs, path, j, cs) && forall k :: 0 <= k < |cs| ==> j.ops[k].done
    ensures AllSwappable(cs)
  {
    forall k | 0 <= k < |cs| ensures Swappable(cs[k]) {
      assert After(fs, j.ops[k], cs[k]) && InPhase(fs, j.ops[k], cs[k]);
    }
  }

  lemma {:induction false} ApplyOne(d: Disk, path: Path, ops: seq<Op>, j: Journal, cs: seq<Component>, i: nat)
    requires UnderWay(d.fs, path, j, cs) && SamePlan(ops, j.ops) && i < |cs| && !j.ops[i].done
    requires forall k :: 0 <= k < i ==> j.ops[k].done
    ensures var r := Apply(d, path, j, i);
            && Committed(r.disk.fs, path, ops, cs)
            && (r.status == Ok ==> Complete(r.disk.fs, path, ops, cs) && AllSwappable(cs))
            && (AllSwappable(cs) ==> !r.status.Failed?)
            && (AllSwappable(cs) && d.budget >= 6 * (|cs| - i) + 1 ==> r.status == Ok)
    decreases |cs| - i, 0
  {
    hide Replace, Save, InPhase, After, UnderWay, Complete;
    UnderWayFacts(d.fs, path, j, cs, i);
    var swapped := Replace(d, j.ops[i]);
    UnderWayReplace(d, path, j, cs, i);
    ReplaceKeeps(d, j.ops[i], cs[i]);
    if swapped.status == Ok {
      UnderWayFacts(swapped.disk.fs, path, j, cs, i);
      var next := MarkDone(j, i);
      var saved := Save(swapped.disk, path, next);
      UnderWaySave(swapped.disk, path, j, cs, i);
      SaveKeeps(swapped.disk, path, next);
      SamePlanMark(ops, j, i);
      if saved.status == Ok {
        ApplyKeeps(saved.disk, path, ops, next, cs, i + 1);
      }
    }
  }

  lemma UnderWayFacts(fs: Fs, path: Path, j: Journal, cs: seq<Component>, i: nat)
    requires UnderWay(fs, path, j, cs) && i < |cs|
    ensures |cs| == |j.ops| && path in fs && fs[path] == JournalFile(j)
    ensures Plain(cs[i]) && InPhase(fs, j.ops[i], cs[i])
    ensures j.ops[i].target != j.ops[i].staged && j.ops[i].target != j.ops[i].backup && j.ops[i].staged != j.ops[i].backup
  {
  }

  /** `Recover`, interrupted or not, never loses a committed restore; when it succeeds the restore is finished. */
  lemma RecoverKeeps(d: Disk, path: Path, ops: seq<Op>, cs: seq<Component>)
    requires Committed(d.fs, path, ops, cs)
    ensures var r := Recover(d, path);
            && Committed(r.disk.fs, path, ops, cs)
            && (r.status == Ok ==> Complete(r.disk.fs, path, ops, cs))
            && (AllSwappable(cs) && d.budget >= 6 * |cs| + 1 ==> r.status == Ok)
  {
    if !Complete(d.fs, path, ops, cs) {
      var j: Journal :| SamePlan(ops, j.ops) && UnderWay(d.fs, path, j, cs);
      ApplyKeeps(d, path, ops, j, cs, 0);
    }
  }

  /** A journal cut short, of another version, or that is no journal at all is refused and left alone. */
  lemma RecoverRefuses(d: Disk, path: Path)
    requires path in d.fs && !(d.fs[path].JournalFile? && d.fs[path].j.version == 1)
    ensures Recover(d, path) == Out(d, Failed(Corrupt))
  {}

  // ----- from the start of a restore

  /** The live components as they were, and no complete journal: nothing was committed. */
  ghost predicate Untouched(fs: Fs, path: Path, ops: seq<Op>, cs: seq<Component>) {
    && |cs| == |ops|
    && (path in fs ==> fs[path].Partial?)
    && forall i :: 0 <= i < |cs| ==> Lookup(fs, ops[i].target) == cs[i].orig && Lookup(fs, ops[i].backup) == cs[i].leftover
  }

  /** A restore may start: no journal and distinct paths; a backup path may hold a leftover. */
  ghost predicate Startable(fs: Fs, path: Path, j: Journal, cs: seq<Component>) {
    && |cs| == |j.ops| && Apart(j.ops, path) && j.version == FORMAT_VERSION && path !in fs
    && (forall i :: 0 <= i < |cs| ==> Plain(cs[i]) && !j.ops[i].done && Lookup(fs, j.ops[i].target) == cs[i].orig)
    && (forall i :: 0 <= i < |cs| ==> Lookup(fs, j.ops[i].backup) == cs[i].leftover)
  }

  function News(cs: seq<Component>): (ns: seq<Node>)
    ensures |ns| == |cs|
  {
    seq(|cs|, i requires 0 <= i < |cs| => cs[i].bundled)
  }

  ghost predicate StagedUpTo(fs: Fs, path: Path, j: Journal, cs: seq<Component>, i: nat) {
    Startable(fs, path, j, cs) && i <= |cs| && forall k :: 0 <= k < i ==> Lookup(fs, j.ops[k].staged) == Some(cs[k].bundled)
  }

  lemma StageOne(fs: Fs, path: Path, j: Journal, cs: seq<Component>, i: nat, n: Node)
    requires StagedUpTo(fs, path, j, cs, i) && i < |cs|
    ensures StagedUpTo(fs[j.ops[i].staged := n], path, j, cs, i)
    ensures n == cs[i].bundled ==> StagedUpTo(fs[j.ops[i].staged := n], path, j, cs, i + 1)
  {
    var gs := fs[j.ops[i].staged := n];
    assert j.ops[i].staged in PathsOf(j.ops[i]);
    forall k | 0 <= k < |cs|
      ensures Lookup(gs, j.ops[k].target) == Lookup(fs, j.ops[k].target) && Lookup(gs, j.ops[k].backup) == Lookup(fs, j.ops[k].backup)
      ensures k != i ==> Lookup(gs, j.ops[k].staged) == Lookup(fs, j.ops[k].staged)
    {
      assert j.ops[k].target in PathsOf(j.ops[k]) && j.ops[k].backup in PathsOf(j.ops[k]) && j.ops[k].staged in PathsOf(j.ops[k]);
      if k < i {
        assert PathsOf(j.ops[k]) !! PathsOf(j.ops[i]);
      } else if i < k {
        assert PathsOf(j.ops[i]) !! PathsOf(j.ops[k]);
      }
    }
  }

  lemma {:induction false} StageKeeps(d: Disk, path: Path, j: Journal, cs: seq<Component>, i: nat)
    requires StagedUpTo(d.fs, path, j, cs, i)
    ensures var r := Stage(d, j.ops, News(cs), i);
            && Startable(r.disk.fs, path, j, cs) && !r.status.Failed?
            && (r.status == Ok ==> StagedUpTo(r.disk.fs, path, j, cs, |cs|))
            && (d.budget >= 2 * (|cs| - i) ==> r.status == Ok) && r.disk.budget + 2 * (|cs| - i) >= d.budget
    decreases |cs| - i
  {
    hide Startable;
    StartableFacts(d.fs, path, j, cs);
    if i < |cs| {
      StageOne(d.fs, path, j, cs, i, Partial);
      var created := Mutate(d, d.fs[j.ops[i].staged := Partial]);
      if created.status == Ok {
        StageOne(created.disk.fs, path, j, cs, i, cs[i].bundled);
        var copied := Mutate(created.disk, created.disk.fs[j.ops[i].staged := cs[i].bundled]);
        if copied.status == Ok {
          StageKeeps(copied.disk, path, j, cs, i + 1);
        }
      }
    }
  }

  lemma StartableFacts(fs: Fs, path: Path, j: Journal, cs: seq<Component>)
    requires Startable(fs, path, j, cs)
    ensures |cs| == |j.ops| && path !in fs && Untouched(fs, path, j.ops, cs)
  {
  }

  lemma JournalWritten(fs: Fs, path: Path, j: Journal, cs: seq<Component>)
    requires StagedUpTo(fs, path, j, cs, |cs|)
    ensures Untouched(fs[path := Partial], path, j.ops, cs)
    ensures UnderWay(fs[path := Partial][path := JournalFile(j)], path, j, cs)
  {
    var gs := fs[path := Partial];
    var hs := gs[path := JournalFile(j)];
    forall i | 0 <= i < |cs|
      ensures Lookup(gs, j.ops[i].target) == cs[i].orig && Lookup(gs, j.ops[i].backup) == cs[i].leftover && Before(hs, j.ops[i], cs[i])
    {
      assert path !in PathsOf(j.ops[i]);
    }
  }

  lemma SamePlanRefl(ops: seq<Op>)
    ensures SamePlan(ops, ops)
  {
  }

  /** `Restore`, stopped anywhere: nothing live was touched, or the restore is committed; success means finished. */
  lemma RestoreKeeps(d: Disk, path: Path, j: Journal, cs: seq<Component>)
    requires Startable(d.fs, path, j, cs)
    ensures var r := RestoreRun(d, path, j, News(cs));
            && (Untouched(r.disk.fs, path, j.ops, cs) || Committed(r.disk.fs, path, j.ops, cs))
            && (r.status == Ok ==> Complete(r.disk.fs, path, j.ops, cs) && AllSwappable(cs))
            && (AllSwappable(cs) && d.budget >= 8 * |cs| + 3 ==> r.status == Ok)
            && (d.budget >= 8 * |cs| + 3 ==> Committed(r.disk.fs, path, j.ops, cs))
  {
    hide Startable, StagedUpTo, Stage, Apply, Untouched, UnderWay, Committed, Complete;
    assert StagedUpTo(d.fs, path, j, cs, 0) by { StagedNone(d.fs, path, j, cs); }
    StartableFacts(d.fs, path, j, cs);
    StageKeeps(d, path, j, cs, 0);
    var staged := Stage(d, j.ops, News(cs), 0);
    StartableFacts(staged.disk.fs, path, j, cs);
    if staged.status == Ok {
      JournalWritten(staged.disk.fs, path, j, cs);
      var created := Mutate(staged.disk, staged.disk.fs[path := Partial]);
      if created.status == Ok {
        var written := Mutate(created.disk, created.disk.fs[path := JournalFile(j)]);
        if written.status == Ok {
          SamePlanRefl(j.ops);
          ApplyKeeps(written.disk, path, j.ops, j, cs, 0);
        }
      }
    }
  }

  lemma StagedNone(fs: Fs, path: Path, j: Journal, cs: seq<Component>)
    requires Startable(fs, path, j, cs)
    ensures StagedUpTo(fs, path, j, cs, 0)
  {
  }

  /** A series of recoveries, each interrupted after its own number of mutations. */
  function RecoverMany(fs: Fs, path: Path, budgets: seq<nat>): (r: Fs)
    decreases |budgets|
  {
    if budgets == [] then fs
    else RecoverMany(Recover(Disk(fs, budgets[0]), path).disk.fs, path, budgets[1..])
  }

  lemma {:induction false} RecoverManyKeeps(fs: Fs, path: Path, ops: seq<Op>, cs: seq<Component>, budgets: seq<nat>)
    requires Untouched(fs, path, ops, cs) || Committed(fs, path, ops, cs)
    ensures var r := RecoverMany(fs, path, budgets);
            (Untouched(fs, path, ops, cs) && r == fs) || (Committed(fs, path, ops, cs) && Committed(r, path, ops, cs))
    decreases |budgets|
  {
    hide Committed;
    if budgets != [] {
      var step := Recover(Disk(fs, budgets[0]), path);
      if Untouched(fs, path, ops, cs) {
        assert step.disk.fs == fs;
      } else {
        RecoverKeeps(Disk(fs, budgets[0]), path, ops, cs);
      }
      RecoverManyKeeps(step.disk.fs, path, ops, cs, budgets[1..]);
    }
  }

  /**
   Interrupt a restore anywhere, then run any number of recoveries, each interrupted
   anywhere: either no live component was ever touched, or the restore is committed and
   a recovery that reports success has finished it. Leftover backups are allowed.
   */
  lemma CrashesKeep(fs: Fs, path: Path, j: Journal, cs: seq<Component>, budget: nat, budgets: seq<nat>)
    requires Startable(fs, path, j, cs)
    ensures var crashed := RestoreRun(Disk(fs, budget), path, j, News(cs)).disk.fs;
            var later := RecoverMany(crashed, path, budgets);
            (Untouched(later, path, j.ops, cs) && later == crashed) || Committed(later, path, j.ops, cs)
  {
    hide Startable, Committed, Complete, RestoreRun;
    StartableFacts(fs, path, j, cs);
    RestoreKeeps(Disk(fs, budget), path, j, cs);
    RecoverManyKeeps(RestoreRun(Disk(fs, budget), path, j, News(cs)).disk.fs, path, j.ops, cs, budgets);
  }

  /** One way a restore and its recoveries may be cut up, and what a last recovery makes of it. */
  ghost predicate AllOrNone(fs: Fs, path: Path, j: Journal, cs: seq<Component>, budget: nat, budgets: seq<nat>, last: nat)
    requires |cs| == |j.ops|
  {
    var crashed := RestoreRun(Disk(fs, budget), path, j, News(cs)).disk.fs;
    var later := RecoverMany(crashed, path, budgets);
    var final := Recover(Disk(later, last), path);
    || (Untouched(later, path, j.ops, cs) && later == crashed && final.disk.fs == later)
    || (&& Committed(later, path, j.ops, cs)
        && (final.status == Ok ==> Complete(final.disk.fs, path, j.ops, cs))
        && (last >= 6 * |cs| + 1 ==> final.status == Ok))
  }

  /**
   Restore is all-or-nothing across crashes, leftover backups or not, as long as every
   component can be swapped: either no live component was ever touched, or one recovery
   that is allowed to finish replaces them all, keeps in the backups what the swap keeps
   and removes the journal.
   */
  lemma AllOrNothing(fs: Fs, path: Path, j: Journal, cs: seq<Component>, budget: nat, budgets: seq<nat>, last: nat)
    requires Startable(fs, path, j, cs) && AllSwappable(cs)
    ensures AllOrNone(fs, path, j, cs, budget, budgets, last)
  {
    hide Startable, Committed, Complete, RestoreRun, AllSwappable;
    StartableFacts(fs, path, j, cs);
    CrashesKeep(fs, path, j, cs, budget, budgets);
    var crashed := RestoreRun(Disk(fs, budget), path, j, News(cs)).disk.fs;
    var later := RecoverMany(crashed, path, budgets);
    if Committed(later, path, j.ops, cs) {
      RecoverKeeps(Disk(later, last), path, j.ops, cs);
    }
  }

  // ----- runs that mix restores and recoveries

  /** What an operator or a supervisor may start, each interrupted after its own number of mutations. */
  datatype Attempt = Restoring(j: Journal, news: seq<Node>, budget: nat) | Recovering(budget: nat)

  predicate WellFormed(a: Attempt) {
    a.Restoring? ==> |a.news| == |a.j.ops|
  }

  predicate AllWellFormed(attempts: seq<Attempt>) {
    forall i :: 0 <= i < |attempts| ==> WellFormed(attempts[i])
  }

  function Try(fs: Fs, path: Path, a: Attempt): (r: Out)
    requires WellFormed(a)
  {
    match a
    case Restoring(j, news, budget) => RestoreRun(Disk(fs, budget), path, j, news)
    case Recovering(budget) => Recover(Disk(fs, budget), path)
  }

  function TryAll(fs: Fs, path: Path, attempts: seq<Attempt>): (r: Fs)
    requires AllWellFormed(attempts)
    decreases |attempts|
  {
    if attempts == [] then fs else TryAll(Try(fs, path, attempts[0]).disk.fs, path, attempts[1..])
  }

  /** Over any journal, whole or partial, a restore of any bundle is refused and changes nothing. */
  lemma JournalRefuses(d: Disk, path: Path, j: Journal, news: seq<Node>)
    requires path in d.fs && |news| == |j.ops|
    ensures var r := RestoreRun(d, path, j, news); r.status.Failed? && r.disk == d
  {}

  /** The run passes through a state in which the first restore is finished. */
  ghost predicate Finishes(fs: Fs, path: Path, attempts: seq<Attempt>, ops: seq<Op>, cs: seq<Component>)
    requires AllWellFormed(attempts)
    decreases |attempts|
  {
    Complete(fs, path, ops, cs)
    || (attempts != [] && Finishes(Try(fs, path, attempts[0]).disk.fs, path, attempts[1..], ops, cs))
  }

  /**
   A committed restore survives whatever is attempted before it is finished: further
   restores of any bundle and recoveries, each cut anywhere, leave it committed until one
   of them finishes it.
   */
  lemma {:induction false} CommittedUntilFinished(fs: Fs, path: Path, ops: seq<Op>, cs: seq<Component>, attempts: seq<Attempt>)
    requires Committed(fs, path, ops, cs) && AllWellFormed(attempts)
    ensures Finishes(fs, path, attempts, ops, cs) || (Committed(TryAll(fs, path, attempts), path, ops, cs) && path in TryAll(fs, path, attempts))
    decreases |attempts|
  {
    if !Complete(fs, path, ops, cs) {
      assert path in fs;
      hide Committed, Recover, RestoreRun, Complete;
      if attempts != [] {
        if attempts[0].Restoring? {
          JournalRefuses(Disk(fs, attempts[0].budget), path, attempts[0].j, attempts[0].news);
        } else {
          RecoverKeeps(Disk(fs, attempts[0].budget), path, ops, cs);
        }
        CommittedUntilFinished(Try(fs, path, attempts[0]).disk.fs, path, ops, cs, attempts[1..]);
      }
    }
  }

  /** What stands at the live paths. */
  type Generation = seq<Option<Node>>

  function Current(fs: Fs, targets: seq<Path>): (g: Generation)
    ensures |g| == |targets| && forall i :: 0 <= i < |targets| ==> g[i] == Lookup(fs, targets[i])
  {
    seq(|targets|, i requires 0 <= i < |targets| => Lookup(fs, targets[i]))
  }

  function Bundled(news: seq<Node>): (g: Generation)
    ensures |g| == |news| && forall i :: 0 <= i < |g| ==> g[i] == Some(news[i])
  {
    seq(|news|, i requires 0 <= i < |news| => Some(news[i]))
  }

  /** Restores of the same live paths by fresh plans: distinct paths, nothing done yet, no links in the bundle. */
  ghost predicate Planned(a: Attempt, path: Path, targets: seq<Path>) {
    && WellFormed(a)
    && (a.Restoring? ==>
          && |a.j.ops| == |targets| && Apart(a.j.ops, path) && a.j.version == FORMAT_VERSION
          && forall i :: 0 <= i < |targets| ==> a.j.ops[i].target == targets[i] && !a.j.ops[i].done && !a.news[i].Link?)
  }

  ghost predicate AllPlanned(attempts: seq<Attempt>, path: Path, targets: seq<Path>) {
    forall i :: 0 <= i < |attempts| ==> Planned(attempts[i], path, targets)
  }

  /** The generations a run may show: the one it began with and every bundle it tried to restore. */
  function Generations(known: set<Generation>, attempts: seq<Attempt>): (gs: set<Generation>)
    decreases |attempts|
  {
    if attempts == [] then known
    else Generations(if attempts[0].Restoring? then known + {Bundled(attempts[0].news)} else known, attempts[1..])
  }

  ghost predicate AimsAt(ops: seq<Op>, targets: seq<Path>) {
    |ops| == |targets| && forall i :: 0 <= i < |ops| ==> ops[i].target == targets[i]
  }

  /** No whole journal, and one known generation live in full. */
  ghost predicate Settled(fs: Fs, path: Path, targets: seq<Path>, known: set<Generation>) {
    (path in fs ==> fs[path].Partial?) && Current(fs, targets) in known
  }

  /** A whole journal on its way from what was live to a known generation. */
  ghost predicate Rolling(fs: Fs, path: Path, targets: seq<Path>, known: set<Generation>) {
    exists j: Journal, cs: seq<Component> ::
      UnderWay(fs, path, j, cs) && AimsAt(j.ops, targets) && Bundled(News(cs)) in known
  }

  lemma CompleteSettles(fs: Fs, path: Path, ops: seq<Op>, cs: seq<Component>, targets: seq<Path>, known: set<Generation>)
    requires Complete(fs, path, ops, cs) && AimsAt(ops, targets) && Bundled(News(cs)) in known
    ensures Settled(fs, path, targets, known)
  {
    assert forall i :: 0 <= i < |targets| ==> After(fs, ops[i], cs[i]);
    assert Current(fs, targets) == Bundled(News(cs));
  }

  lemma CommittedRolls(fs: Fs, path: Path, ops: seq<Op>, cs: seq<Component>, targets: seq<Path>, known: set<Generation>)
    requires Committed(fs, path, ops, cs) && AimsAt(ops, targets) && Bundled(News(cs)) in known
    ensures Settled(fs, path, targets, known) || Rolling(fs, path, targets, known)
  {
    if Complete(fs, path, ops, cs) {
      CompleteSettles(fs, path, ops, cs, targets, known);
    } else {
      var j: Journal :| SamePlan(ops, j.ops) && UnderWay(fs, path, j, cs);
      assert AimsAt(j.ops, targets);
    }
  }

  lemma UntouchedSettles(fs: Fs, gs: Fs, path: Path, ops: seq<Op>, cs: seq<Component>, targets: seq<Path>, known: set<Generation>)
    requires Untouched(gs, path, ops, cs) && AimsAt(ops, targets) && Current(fs, targets) in known
    requires forall i :: 0 <= i < |cs| ==> cs[i].orig == Lookup(fs, targets[i])
    ensures Settled(gs, path, targets, known)
  {
    assert Current(gs, targets) == Current(fs, targets);
  }

  function Components(fs: Fs, ops: seq<Op>, news: seq<Node>): (cs: seq<Component>)
    requires |news| == |ops|
    ensures |cs| == |ops| && News(cs) == news
  {
    seq(|ops|, i requires 0 <= i < |ops| => Component(Lookup(fs, ops[i].target), news[i], Lookup(fs, ops[i].backup)))
  }

  lemma PlannedStarts(fs: Fs, path: Path, targets: seq<Path>, a: Attempt)
    requires Planned(a, path, targets) && a.Restoring? && path !in fs
    ensures Startable(fs, path, a.j, Components(fs, a.j.ops, a.news)) && AimsAt(a.j.ops, targets)
  {}

  /** Every attempt, cut anywhere, leaves one known generation live in full, or a journal that rolls forward to one. */
  lemma TryKeeps(fs: Fs, path: Path, targets: seq<Path>, known: set<Generation>, a: Attempt)
    requires Planned(a, path, targets)
    requires Settled(fs, path, targets, known) || Rolling(fs, path, targets, known)
    ensures var gs, more := Try(fs, path, a).disk.fs, Generations(known, [a]);
      Settled(gs, path, targets, more) || Rolling(gs, path, targets, more)
  {
    hide Startable, Committed, Untouched, Apart, UnderWay, RestoreRun, Recover;
    var more := Generations(known, [a]);
    OneGeneration(known, a);
    hide Generations;
    if a.Restoring? {
      RestoreSettles(fs, path, targets, known, more, a);
    } else if Settled(fs, path, targets, known) {
      NothingToRecover(Disk(fs, a.budget), path);
    } else {
      var j: Journal, cs: seq<Component> :| UnderWay(fs, path, j, cs) && AimsAt(j.ops, targets) && Bundled(News(cs)) in known;
      UnderWayCommitted(fs, path, j, cs);
      RecoverKeeps(Disk(fs, a.budget), path, j.ops, cs);
      CommittedRolls(Recover(Disk(fs, a.budget), path).disk.fs, path, j.ops, cs, targets, more);
    }
  }

  lemma OneGeneration(known: set<Generation>, a: Attempt)
    ensures Generations(known, [a]) == if a.Restoring? then known + {Bundled(a.news)} else known
  {
    assert [a][1..] == [];
  }

  lemma NothingToRecover(d: Disk, path: Path)
    requires path in d.fs ==> d.fs[path].Partial?
    ensures Recover(d, path).disk == d
  {}

  lemma UnderWayCommitted(fs: Fs, path: Path, j: Journal, cs: seq<Component>)
    requires UnderWay(fs, path, j, cs)
    ensures Committed(fs, path, j.ops, cs) && path in fs
  {
    SamePlanRefl(j.ops);
  }

  lemma RestoreSettles(fs: Fs, path: Path, targets: seq<Path>, known: set<Generation>, more: set<Generation>, a: Attempt)
    requires Planned(a, path, targets) && a.Restoring? && more == known + {Bundled(a.news)}
    requires Settled(fs, path, targets, known) || Rolling(fs, path, targets, known)
    ensures var gs := Try(fs, path, a).disk.fs; Settled(gs, path, targets, more) || Rolling(gs, path, targets, more)
  {
    hide Startable, Committed, Untouched, Apart, RestoreRun;
    var d := Disk(fs, a.budget);
    if path in fs {
      JournalRefuses(d, path, a.j, a.news);
      if Rolling(fs, path, targets, known) {
        var j: Journal, cs: seq<Component> :| UnderWay(fs, path, j, cs) && AimsAt(j.ops, targets) && Bundled(News(cs)) in known;
        assert Bundled(News(cs)) in more;
      }
    } else {
      assert Settled(fs, path, targets, known);
      hide UnderWay;
      var cs := Components(fs, a.j.ops, a.news);
      PlannedStarts(fs, path, targets, a);
      RestoreKeeps(d, path, a.j, cs);
      var gs := RestoreRun(d, path, a.j, a.news).disk.fs;
      if Untouched(gs, path, a.j.ops, cs) {
        UntouchedSettles(fs, gs, path, a.j.ops, cs, targets, more);
      } else {
        CommittedRolls(gs, path, a.j.ops, cs, targets, more);
      }
    }
  }

  /**
   All or nothing over whole runs: after any number of restores and recoveries, each cut
   anywhere, the live paths hold in full what was there at first or one of the bundles,
   or a whole journal is on its way to one of them.
   */
  lemma {:induction false} MixedRuns(fs: Fs, path: Path, targets: seq<Path>, known: set<Generation>, attempts: seq<Attempt>)
    requires AllPlanned(attempts, path, targets) && AllWellFormed(attempts)
    requires Settled(fs, path, targets, known) || Rolling(fs, path, targets, known)
    ensures var gs, more := TryAll(fs, path, attempts), Generations(known, attempts);
      Settled(gs, path, targets, more) || Rolling(gs, path, targets, more)
    decreases |attempts|
  {
    hide Settled, Rolling, Planned, Try;
    if attempts != [] {
      TryKeeps(fs, path, targets, known, attempts[0]);
      OneGeneration(known, attempts[0]);
      MixedRuns(Try(fs, path, attempts[0]).disk.fs, path, targets, Generations(known, [attempts[0]]), attempts[1..]);
    }
  }

  /** From a clean start, spelled out. */
  lemma AllOrNothingMixed(fs: Fs, path: Path, targets: seq<Path>, attempts: seq<Attempt>)
    requires path !in fs && AllPlanned(attempts, path, targets) && AllWellFormed(attempts)
    ensures var gs, shown := TryAll(fs, path, attempts), Generations({Current(fs, targets)}, attempts);
      || ((path in gs ==> gs[path].Partial?) && Current(gs, targets) in shown)
      || (exists j: Journal, cs: seq<Component> :: UnderWay(gs, path, j, cs) && AimsAt(j.ops, targets) && Bundled(News(cs)) in shown)
  {
    MixedRuns(fs, path, targets, {Current(fs, targets)}, attempts);
  }

  /** A committed journal can be rolled forward if and only if every component is swappable. */
  lemma RollsForwardIff(d: Disk, path: Path, j: Journal, cs: seq<Component>)
    requires UnderWay(d.fs, path, j, cs) && d.budget >= 6 * |cs| + 1
    ensures Recover(d, path).status == Ok <==> AllSwappable(cs)
  {
    hide InPhase, After, Apart;
    SamePlanRefl(j.ops);
    ApplyKeeps(d, path, j.ops, j, cs, 0);
  }

  /** From the start: restore is all-or-nothing for every crash and recovery if and only if every component is swappable. */
  lemma AllOrNothingIff(fs: Fs, path: Path, j: Journal, cs: seq<Component>)
    requires Startable(fs, path, j, cs)
    ensures |cs| == |j.ops|
    ensures (forall budget: nat, budgets: seq<nat>, last: nat :: AllOrNone(fs, path, j, cs, budget, budgets, last)) <==> AllSwappable(cs)
  {
    StartableFacts(fs, path, j, cs);
    hide Startable, AllSwappable, AllOrNone, Untouched;
    if AllSwappable(cs) {
      forall budget: nat, budgets: seq<nat>, last: nat ensures AllOrNone(fs, path, j, cs, budget, budgets, last) {
        AllOrNothing(fs, path, j, cs, budget, budgets, last);
      }
    } else {
      NeverFinishes(fs, path, j, cs);
    }
  }

  /** With a component that cannot be swapped, the restore commits and then no recovery ever finishes it. */
  lemma NeverFinishes(fs: Fs, path: Path, j: Journal, cs: seq<Component>)
    requires Startable(fs, path, j, cs) && !AllSwappable(cs)
    ensures |cs| == |j.ops| && !AllOrNone(fs, path, j, cs, 8 * |cs| + 3, [], 6 * |cs| + 1)
  {
    StartableFacts(fs, path, j, cs);
    var d := Disk(fs, 8 * |cs| + 3);
    RestoreCommits(d, path, j, cs);
    var crashed := RestoreRun(d, path, j, News(cs)).disk.fs;
    var k: Journal :| SamePlan(j.ops, k.ops) && UnderWay(crashed, path, k, cs);
    RollsForwardIff(Disk(crashed, 6 * |cs| + 1), path, k, cs);
    hide RestoreRun, UnderWay, Startable, AllSwappable, Complete;
    assert RecoverMany(crashed, path, []) == crashed;
    assert path in crashed && crashed[path] == JournalFile(k) by { JournalThere(crashed, path, k, cs); }
  }

  lemma JournalThere(fs: Fs, path: Path, j: Journal, cs: seq<Component>)
    requires UnderWay(fs, path, j, cs)
    ensures path in fs && fs[path] == JournalFile(j)
  {
  }

  /** Given time to write its journal, a restore that cannot finish stays under way. */
  lemma RestoreCommits(d: Disk, path: Path, j: Journal, cs: seq<Component>)
    requires Startable(d.fs, path, j, cs) && !AllSwappable(cs) && d.budget >= 8 * |cs| + 3
    ensures |cs| == |j.ops|
    ensures exists k: Journal :: SamePlan(j.ops, k.ops) && UnderWay(RestoreRun(d, path, j, News(cs)).disk.fs, path, k, cs)
  {
    hide Startable, StagedUpTo, Stage, Apply, Untouched, UnderWay, Complete, AllSwappable;
    StagedNone(d.fs, path, j, cs);
    StartableFacts(d.fs, path, j, cs);
    StageKeeps(d, path, j, cs, 0);
    var staged := Stage(d, j.ops, News(cs), 0);
    StartableFacts(staged.disk.fs, path, j, cs);
    JournalWritten(staged.disk.fs, path, j, cs);
    var written := Disk(staged.disk.fs[path := Partial][path := JournalFile(j)], staged.disk.budget - 2);
    SamePlanRefl(j.ops);
    ApplyStuck(written, path, j.ops, j, cs, 0);
  }

  /** Rolling forward a plan that cannot finish leaves it under way. */
  lemma {:induction false} ApplyStuck(d: Disk, path: Path, ops: seq<Op>, j: Journal, cs: seq<Component>, i: nat)
    requires UnderWay(d.fs, path, j, cs) && SamePlan(ops, j.ops) && i <= |cs| && !AllSwappable(cs)
    requires forall k :: 0 <= k < i ==> j.ops[k].done
    ensures |cs| == |j.ops|
    ensures exists k: Journal :: SamePlan(ops, k.ops) && UnderWay(Apply(d, path, j, i).disk.fs, path, k, cs)
    decreases |cs| - i
  {
    hide InPhase, After, Apart, AllSwappable, Replace, Save;
    if i == |cs| {
      DoneAreSwappable(d.fs, path, j, cs);
    } else if j.ops[i].done {
      ApplyStuck(d, path, ops, j, cs, i + 1);
    } else {
      var swapped := Replace(d, j.ops[i]);
      UnderWayReplace(d, path, j, cs, i);
      if swapped.status == Ok {
        var next := MarkDone(j, i);
        var saved := Save(swapped.disk, path, next);
        UnderWaySave(swapped.disk, path, j, cs, i);
        SamePlanMark(ops, j, i);
        if saved.status == Ok {
          ApplyStuck(saved.disk, path, ops, next, cs, i + 1);
        }
      }
    }
  }

  // ----- what a leftover backup does

  /** The outcome of one uninterrupted swap, for every kind of node at every one of its paths. */
  lemma ReplaceOutcome(d: Disk, op: Op)
    requires op.target != op.staged && op.target != op.backup && op.staged != op.backup && d.budget >= 2
    ensures var r := Replace(d, op);
            var target, staged, backup := Lookup(d.fs, op.target), Lookup(d.fs, op.staged), Lookup(d.fs, op.backup);
            if target == Some(Link) then r == Out(d, Failed(UnsafePath))
            else if staged.None? then r == Out(d, if target.Some? then Ok else Failed(Corrupt))
            else if target.Some? && backup.Some? && target.value.Dir? then r == Out(d, Failed(Exists))
            else if target.Some? && backup.Some? && staged.value.Dir? then r == Out(d, Failed(NotDirectory))
            else && r.status == Ok && SameExcept(d.fs, r.disk.fs, PathsOf(op))
                 && Lookup(r.disk.fs, op.target) == staged && Lookup(r.disk.fs, op.staged) == None
                 && Lookup(r.disk.fs, op.backup) == if backup.Some? then backup else target
  {
  }

  /**
   The original ends up in the backup if and only if the backup path was free, or already
   held it and no directory is involved. Otherwise it is lost when neither it nor the
   staged component is a directory, and stays live, with the swap failing, when one is.
   */
  lemma OriginalKeptIff(d: Disk, op: Op)
    requires op.target != op.staged && op.target != op.backup && op.staged != op.backup
    requires op.target in d.fs && !d.fs[op.target].Link? && op.staged in d.fs && d.budget >= 2
    ensures var r := Replace(d, op);
            var orig, leftover := d.fs[op.target], Lookup(d.fs, op.backup);
            var directory := orig.Dir? || d.fs[op.staged].Dir?;
            && (r.status == Ok && Lookup(r.disk.fs, op.backup) == Some(orig) <==>
                leftover == None || (leftover == Some(orig) && !directory))
            && (r.status.Failed? <==> leftover.Some? && directory)
            && (r.status.Failed? ==> r.disk == d)
            && (r.status == Ok ==> Lookup(r.disk.fs, op.target) == Some(d.fs[op.staged]))
  {
    ReplaceOutcome(d, op);
  }

  // ----- a second restore

  /** What a finished restore left behind makes the same component unswappable for the next one. */
  lemma SecondRestoreStuck(fs: Fs, path: Path, ops: seq<Op>, cs: seq<Component>, j: Journal, ds: seq<Component>, k: nat)
    requires Complete(fs, path, ops, cs) && Startable(fs, path, j, ds) && k < |cs| && k < |ds|
    requires j.ops[k].target == ops[k].target && j.ops[k].backup == ops[k].backup
    requires cs[k].bundled.Dir? && Kept(cs[k]).Some?
    ensures !AllSwappable(ds)
    ensures exists budget: nat, budgets: seq<nat>, last: nat :: !AllOrNone(fs, path, j, ds, budget, budgets, last)
  {
    assert After(fs, ops[k], cs[k]);
    assert !Swappable(ds[k]);
    NeverFinishes(fs, path, j, ds);
  }

  /** Once committed, a restore that cannot finish is never finished by any recovery. */
  lemma StuckForGood(d: Disk, path: Path, j: Journal, cs: seq<Component>)
    requires Startable(d.fs, path, j, cs) && !AllSwappable(cs) && d.budget >= 8 * |cs| + 3
    ensures |cs| == |j.ops|
    ensures forall budget: nat :: Recover(Disk(RestoreRun(d, path, j, News(cs)).disk.fs, budget), path).status != Ok
  {
    RestoreCommits(d, path, j, cs);
    var fs := RestoreRun(d, path, j, News(cs)).disk.fs;
    var k: Journal :| SamePlan(j.ops, k.ops) && UnderWay(fs, path, k, cs);
    hide RestoreRun, Startable, Apply;
    forall budget: nat ensures Recover(Disk(fs, budget), path).status != Ok {
      ApplyKeeps(Disk(fs, budget), path, j.ops, k, cs, 0);
    }
  }

  /** Live target and backup of every component from `from` on are as they were. */
  ghost predicate LiveFrom(a: Fs, b: Fs, ops: seq<Op>, from: nat) {
    forall k :: from <= k < |ops| ==> Lookup(a, ops[k].target) == Lookup(b, ops[k].target) && Lookup(a, ops[k].backup) == Lookup(b, ops[k].backup)
  }

  /** Rolling forward swaps everything before the first unswappable component, fails there and leaves the rest. */
  lemma {:induction false} ApplySplits(d: Disk, path: Path, j: Journal, cs: seq<Component>, i: nat, bad: nat)
    requires UnderWay(d.fs, path, j, cs) && i <= bad < |cs| && !Swappable(cs[bad]) && d.budget >= 6 * (bad - i)
    requires forall k :: 0 <= k < bad ==> Swappable(cs[k])
    requires forall k :: 0 <= k < i ==> j.ops[k].done
    ensures |cs| == |j.ops|
    ensures var r := Apply(d, path, j, i);
            && r.status.Failed? && LiveFrom(d.fs, r.disk.fs, j.ops, bad)
            && forall k :: 0 <= k < bad ==> After(r.disk.fs, j.ops[k], cs[k])
    decreases bad - i
  {
    hide InPhase, Apart, Replace, Save;
    UnderWayFacts(d.fs, path, j, cs, i);
    if i == bad {
      UndoneIfUnswappable(d.fs, path, j, cs, i);
      ReplaceKeeps(d, j.ops[i], cs[i]);
    } else if j.ops[i].done {
      ApplySplits(d, path, j, cs, i + 1, bad);
    } else {
      var swapped := Replace(d, j.ops[i]);
      UnderWayReplace(d, path, j, cs, i);
      ReplaceKeeps(d, j.ops[i], cs[i]);
      UnderWayFacts(swapped.disk.fs, path, j, cs, i);
      var next := MarkDone(j, i);
      var saved := Save(swapped.disk, path, next);
      UnderWaySave(swapped.disk, path, j, cs, i);
      SaveKeeps(swapped.disk, path, next);
      LiveAfterOne(d.fs, swapped.disk.fs, saved.disk.fs, path, j, cs, i, bad);
      ApplySplits(saved.disk, path, next, cs, i + 1, bad);
      assert forall k :: 0 <= k < |cs| ==> next.ops[k].(done := j.ops[k].done) == j.ops[k];
    }
  }

  lemma UndoneIfUnswappable(fs: Fs, path: Path, j: Journal, cs: seq<Component>, i: nat)
    requires UnderWay(fs, path, j, cs) && i < |cs| && !Swappable(cs[i])
    ensures !j.ops[i].done
  {
  }

  lemma LiveAfterOne(a: Fs, b: Fs, c: Fs, path: Path, j: Journal, cs: seq<Component>, i: nat, bad: nat)
    requires UnderWay(a, path, j, cs) && i < bad < |cs|
    requires SameExcept(a, b, PathsOf(j.ops[i])) && SameExcept(b, c, {path, TmpOf(path)})
    ensures LiveFrom(a, c, j.ops, bad)
  {
    hide InPhase, After;
    forall k | bad <= k < |cs|
      ensures Lookup(a, j.ops[k].target) == Lookup(c, j.ops[k].target) && Lookup(a, j.ops[k].backup) == Lookup(c, j.ops[k].backup)
    {
      assert PathsOf(j.ops[i]) !! PathsOf(j.ops[k]);
      assert path !in PathsOf(j.ops[k]) && TmpOf(path) !in PathsOf(j.ops[k]);
      assert j.ops[k].target in PathsOf(j.ops[k]) && j.ops[k].backup in PathsOf(j.ops[k]);
    }
  }

  /** So an uninterrupted restore past an unswappable component ends half done: neither all nor nothing. */
  lemma RestoreSplits(d: Disk, path: Path, j: Journal, cs: seq<Component>, bad: nat)
    requires Startable(d.fs, path, j, cs) && bad < |cs| && !Swappable(cs[bad]) && d.budget >= 8 * |cs| + 3
    requires forall k :: 0 <= k < bad ==> Swappable(cs[k])
    ensures |cs| == |j.ops|
    ensures var r := RestoreRun(d, path, j, News(cs));
            && r.status.Failed?
            && (forall k :: 0 <= k < bad ==> After(r.disk.fs, j.ops[k], cs[k]))
            && (forall k :: bad <= k < |cs| ==> Lookup(r.disk.fs, j.ops[k].target) == cs[k].orig)
  {
    hide Startable, StagedUpTo, Stage, Apply, Untouched, UnderWay, Swappable;
    StagedNone(d.fs, path, j, cs);
    StartableFacts(d.fs, path, j, cs);
    StageKeeps(d, path, j, cs, 0);
    var staged := Stage(d, j.ops, News(cs), 0);
    StartableFacts(staged.disk.fs, path, j, cs);
    JournalWritten(staged.disk.fs, path, j, cs);
    var fs := staged.disk.fs[path := Partial][path := JournalFile(j)];
    ApplySplits(Disk(fs, staged.disk.budget - 2), path, j, cs, 0, bad);
    forall k | 0 <= k < |cs| ensures Lookup(fs, j.ops[k].target) == cs[k].orig {
      StartedTarget(staged.disk.fs, path, j, cs, k);
    }
  }

  lemma StartedTarget(fs: Fs, path: Path, j: Journal, cs: seq<Component>, k: nat)
    requires Startable(fs, path, j, cs) && k < |cs|
    ensures Lookup(fs, j.ops[k].target) == cs[k].orig && j.ops[k].target != path
  {
    assert path !in PathsOf(j.ops[k]);
  }

  const DB := "db"
  const KV := "kv/"
  const ID := "id"

  function OpFor(target: Path): (op: Op) {
    Op(target, target, "stage:" + target, target + ".restore-previous", false)
  }

  /** The live state one finished restore leaves: each component with a backup beside it. */
  const ONCE_RESTORED: Fs := map[
    DB := File("d1"), DB + ".restore-previous" := File("d0"),
    KV := Dir("k1"), KV + ".restore-previous" := Dir("k0"),
    ID := File("s1"), ID + ".restore-previous" := File("s0")]

  /** Restoring a second time over it: the database is new, the KV root and the identity are not, and it cannot finish. */
  lemma SecondRestoreExample()
    ensures var j := Journal(FORMAT_VERSION, [OpFor(DB), OpFor(KV), OpFor(ID)]);
            var news := [File("d2"), Dir("k2"), File("s2")];
            var r := RestoreRun(Disk(ONCE_RESTORED, 27), "journal", j, news);
            && r.status.Failed?
            && Lookup(r.disk.fs, DB) == Some(File("d2"))
            && Lookup(r.disk.fs, KV) == Some(Dir("k1")) && Lookup(r.disk.fs, ID) == Some(File("s1"))
            && forall budget: nat :: Recover(Disk(r.disk.fs, budget), "journal").status != Ok
  {
    var j := Journal(FORMAT_VERSION, [OpFor(DB), OpFor(KV), OpFor(ID)]);
    var cs := [Component(Some(File("d1")), File("d2"), Some(File("d0"))),
               Component(Some(Dir("k1")), Dir("k2"), Some(Dir("k0"))),
               Component(Some(File("s1")), File("s2"), Some(File("s0")))];
    assert News(cs) == [File("d2"), Dir("k2"), File("s2")];
    ExampleStartable(j, cs);
    assert Swappable(cs[0]) && !Swappable(cs[1]);
    hide RestoreRun, Recover, Startable, Kept, Swappable, News;
    var d := Disk(ONCE_RESTORED, 27);
    RestoreSplits(d, "journal", j, cs, 1);
    StuckForGood(d, "journal", j, cs);
    assert j.ops[0].target == DB && j.ops[1].target == KV && j.ops[2].target == ID;
    assert After(RestoreRun(d, "journal", j, News(cs)).disk.fs, j.ops[0], cs[0]);
  }

  lemma ExamplePaths()
    ensures Apart([OpFor(DB), OpFor(KV), OpFor(ID)], "journal")
    ensures "journal" !in ONCE_RESTORED
  {
    assert (DB + ".restore-previous")[0] == 'd' && (KV + ".restore-previous")[0] == 'k' && (ID + ".restore-previous")[0] == 'i';
    assert |"stage:" + DB| == 8 && |"stage:" + KV| == 9 && |"stage:" + ID| == 8;
    assert ("stage:" + DB)[6] == 'd' && ("stage:" + ID)[6] == 'i' && ("stage:" + KV)[0] == 's';
    assert TmpOf("journal")[0] == 'j' && DB[0] == 'd' && KV[0] == 'k' && ID[0] == 'i' && "journal"[0] == 'j';
  }

  lemma ExampleLookups()
    ensures Lookup(ONCE_RESTORED, DB) == Some(File("d1")) && Lookup(ONCE_RESTORED, DB + ".restore-previous") == Some(File("d0"))
    ensures Lookup(ONCE_RESTORED, KV) == Some(Dir("k1")) && Lookup(ONCE_RESTORED, KV + ".restore-previous") == Some(Dir("k0"))
    ensures Lookup(ONCE_RESTORED, ID) == Some(File("s1")) && Lookup(ONCE_RESTORED, ID + ".restore-previous") == Some(File("s0"))
  {
    assert |DB + ".restore-previous"| == 19 && |KV + ".restore-previous"| == 20 && |ID + ".restore-previous"| == 19;
    assert (DB + ".restore-previous")[0] == 'd' && (ID + ".restore-previous")[0] == 'i';
    assert DB[0] == 'd' && KV[0] == 'k' && ID[0] == 'i';
  }

  lemma ExampleStartable(j: Journal, cs: seq<Component>)
    requires j == Journal(FORMAT_VERSION, [OpFor(DB), OpFor(KV), OpFor(ID)])
    requires cs == [Component(Some(File("d1")), File("d2"), Some(File("d0"))),
                    Component(Some(Dir("k1")), Dir("k2"), Some(Dir("k0"))),
                    Component(Some(File("s1")), File("s2"), Some(File("s0")))]
    ensures Startable(ONCE_RESTORED, "journal", j, cs)
  {
    hide Apart, Lookup;
    ExamplePaths();
    ExampleLookups();
  }

  // ----- the operations on a live file system

  /** A machine that may lose power: every mutation uses up one unit of `budget`. */
  class Machine {
    var fs: Fs
    var budget: nat

    ghost function View(): (d: Disk)
      reads this
    {
      Disk(fs, budget)
    }

    constructor (initial: Fs, mutations: nat)
      ensures View() == Disk(initial, mutations)
    {
      fs, budget := initial, mutations;
    }

    method Commit(next: Fs) returns (st: Status)
      modifies this
      ensures Out(View(), st) == Mutate(old(View()), next)
    {
      if budget == 0 {
        return Interrupted;
      }
      fs, budget := next, budget - 1;
      return Ok;
    }

    method RenamePath(a: Path, b: Path) returns (st: Status)
      requires a in fs
      modifies this
      ensures Out(View(), st) == Rename(old(View()), a, b)
    {
      if b in fs && fs[b].Dir? {
        return Failed(Exists);
      }
      if b in fs && fs[a].Dir? {
        return Failed(NotDirectory);
      }
      st := Commit(Moved(fs, a, b));
    }

    method RemovePath(p: Path) returns (st: Status)
      modifies this
      ensures Out(View(), st) == RemoveIfPresent(old(View()), p)
    {
      st := Ok;
      if p in fs {
        st := Commit(fs - {p});
      }
    }

    method ReplaceOperation(op: Op) returns (st: Status)
      modifies this
      ensures Out(View(), st) == Replace(old(View()), op)
    {
      var stageExists := op.staged in fs;
      var targetExists := op.target in fs;
      if targetExists && fs[op.target].Link? {
        return Failed(UnsafePath);
      }
      if !stageExists {
        return if targetExists then Ok else Failed(Corrupt);
      }
      if targetExists && op.backup !in fs {
        st := RenamePath(op.target, op.backup);
        if st != Ok {
          return;
        }
        if op.staged !in fs {
          return Failed(Corrupt);
        }
      }
      st := RenamePath(op.staged, op.target);
    }

    method WriteJournal(path: Path, j: Journal) returns (st: Status)
      modifies this
      ensures Out(View(), st) == Save(old(View()), path, j)
    {
      var tmp := TmpOf(path);
      st := RemovePath(tmp);
      if st != Ok {
        return;
      }
      st := Commit(fs[tmp := Partial]);
      if st != Ok {
        return;
      }
      st := Commit(fs[tmp := JournalFile(j)]);
      if st != Ok {
        return;
      }
      st := RenamePath(tmp, path);
    }

    method ApplyJournal(path: Path, intent: Journal) returns (st: Status)
      modifies this
      ensures Out(View(), st) == Apply(old(View()), path, intent, 0)
    {
      var j := intent;
      for i := 0 to |intent.ops|
        invariant |j.ops| == |intent.ops|
        invariant Apply(old(View()), path, intent, 0) == Apply(View(), path, j, i)
      {
        if j.ops[i].done {
          continue;
        }
        st := ReplaceOperation(j.ops[i]);
        if st != Ok {
          return;
        }
        j := MarkDone(j, i);
        st := WriteJournal(path, j);
        if st != Ok {
          return;
        }
      }
      st := RemovePath(path);
    }

    method RecoverState(path: Path) returns (st: Status)
      modifies this
      ensures Out(View(), st) == Recover(old(View()), path)
    {
      if path !in fs {
        return Ok;
      }
      if !fs[path].JournalFile? || fs[path].j.version != FORMAT_VERSION {
        return Failed(Corrupt);
      }
      st := ApplyJournal(path, fs[path].j);
    }

    method RestoreState(path: Path, j: Journal, news: seq<Node>) returns (st: Status)
      requires |news| == |j.ops|
      modifies this
      ensures Out(View(), st) == RestoreRun(old(View()), path, j, news)
    {
      if path in fs {
        return Failed(JournalExists);
      }
      for i := 0 to |j.ops|
        invariant Stage(old(View()), j.ops, news, 0) == Stage(View(), j.ops, news, i)
      {
        st := Commit(fs[j.ops[i].staged := Partial]);
        if st != Ok {
          return;
        }
        st := Commit(fs[j.ops[i].staged := news[i]]);
        if st != Ok {
          return;
        }
      }
      st := Commit(fs[path := Partial]);
      if st != Ok {
        return;
      }
      st := Commit(fs[path := JournalFile(j)]);
      if st != Ok {
        return;
      }
      st := ApplyJournal(path, j);
    }
  }
}
