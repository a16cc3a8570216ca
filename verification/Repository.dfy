/**
 The deployment tables of the control-plane repository. Tables are maps, one
 transaction is one atomic step, and the schema's own constraints are explicit.
 Nothing in the schema ties an artifact to its blob, so that link is proved of
 the transactions themselves.
 */
module Repository {
  import opened Bytes
  import opened Results

  /** The content digest and the identifier syntax are parameters. */
  datatype Env = Env(digest: bytes -> string, validId: string -> bool)

  datatype App = App(author: string, name: string, kind: string, access: string, suspended: bool)
  datatype Device = Device(author: string, revoked: bool)
  datatype Blob = Blob(size: nat, wasm: bytes)
  datatype Artifact = Artifact(digest: string, size: nat, abi: int, created: int)
  datatype Deployment = Deployment(app: string, artifact: string, device: string)
  datatype Session = Session(app: string, deployment: string, digest: string, ended: Option<int>)
  datatype Quota = Quota(deploymentsPerApp: int, sessions: int)

  datatype Db = Db(
    apps: map<string, App>,
    devices: map<string, Device>,
    quotas: map<string, Quota>,
    blobs: map<string, Blob>,
    artifacts: map<string, Artifact>,
    deployments: map<string, Deployment>,
    active: map<string, string>,
    suspended: set<string>,
    sessions: map<string, Session>,
    audit: map<string, int>,
    tombstones: map<string, int>)

  datatype Error = Invalid | NotFound | Conflict | OverQuota | IsSuspended | Integrity | Storage

  type Outcome = Result<Db, Error>

  // ----- statements, with the constraints the schema puts on them

  predicate DigestUsed(artifacts: map<string, Artifact>, digest: string) {
    exists id :: id in artifacts && artifacts[id].digest == digest
  }

  predicate ArtifactUsed(deployments: map<string, Deployment>, artifact: string) {
    exists d :: d in deployments && deployments[d].artifact == artifact
  }

  predicate IsOpen(sessions: map<string, Session>, session: string) {
    session in sessions && sessions[session].ended.None?
  }

  predicate InUse(sessions: map<string, Session>, deployment: string) {
    exists s :: s in sessions && IsOpen(sessions, s) && sessions[s].deployment == deployment
  }

  predicate SizeClash(db: Db, digest: string, size: nat) {
    exists id :: id in db.artifacts && db.artifacts[id].digest == digest && db.artifacts[id].size != size
  }

  /** `artifact_blob_size_insert` and the primary key. */
  function InsertBlob(db: Db, digest: string, wasm: bytes): (r: Outcome) {
    if digest in db.blobs || SizeClash(db, digest, |wasm|) then Failure(Conflict)
    else Success(db.(blobs := db.blobs[digest := Blob(|wasm|, wasm)]))
  }

  /** Deduplicated blob storage: a stored digest must carry the very same bytes. */
  function StoreBlob(db: Db, digest: string, wasm: bytes): (r: Outcome) {
    if digest in db.blobs then
      if db.blobs[digest] != Blob(|wasm|, wasm) then Failure(Conflict) else Success(db)
    else InsertBlob(db, digest, wasm)
  }

  /** `artifact_size_insert` and the primary key. */
  function InsertArtifact(db: Db, id: string, a: Artifact): (r: Outcome) {
    if id in db.artifacts || (a.digest in db.blobs && db.blobs[a.digest].size != a.size) then Failure(Conflict)
    else Success(db.(artifacts := db.artifacts[id := a]))
  }

  /** Primary key and the three foreign keys of a deployment. */
  function InsertDeployment(db: Db, id: string, d: Deployment): (r: Outcome) {
    if id in db.deployments || d.app !in db.apps || d.artifact !in db.artifacts || d.device !in db.devices then Failure(Conflict)
    else Success(db.(deployments := db.deployments[id := d]))
  }

  /** Upsert of the active pointer: unique deployment, and the pair must be a deployment row. */
  function PointActive(db: Db, app: string, deployment: string): (r: Outcome) {
    if deployment !in db.deployments || db.deployments[deployment].app != app
       || exists other :: other in db.active && other != app && db.active[other] == deployment
    then Failure(Conflict)
    else Success(db.(active := db.active[app := deployment]))
  }

  /** An active deployment cannot be deleted; its suspension row goes with it. */
  function DeleteDeployment(db: Db, id: string): (r: Outcome) {
    if exists app :: app in db.active && db.active[app] == id then Failure(Conflict)
    else Success(db.(deployments := db.deployments - {id}, suspended := db.suspended - {id}))
  }

  function DeleteUnusedArtifact(db: Db, id: string): (r: Db) {
    if ArtifactUsed(db.deployments, id) then db else db.(artifacts := db.artifacts - {id})
  }

  function DeleteUnusedBlob(db: Db, digest: string): (r: Db) {
    if DigestUsed(db.artifacts, digest) then db else db.(blobs := db.blobs - {digest})
  }

  function InsertAudit(db: Db, id: string, at: int): (r: Outcome) {
    if id in db.audit then Failure(Conflict) else Success(db.(audit := db.audit[id := at]))
  }

  // ----- transactions

  datatype ArtifactInput = ArtifactInput(
    id: string, digest: string, wasm: bytes, abi: int, created: int, metadata: map<string, string>)

  const MAX_WASM: nat := 0x400_0000

  predicate ValidArtifact(env: Env, a: ArtifactInput) {
    env.validId(a.id) && |a.wasm| <= MAX_WASM && a.digest == env.digest(a.wasm) && 0 <= a.abi <= 255
  }

  predicate ValidMetadata(env: Env, metadata: map<string, string>) {
    forall k :: k in metadata ==> env.validId(k) && |metadata[k]| <= 2048
  }

  /** Blob, artifact row and build metadata, as every upload stores them. */
  function AddArtifact(env: Env, db: Db, a: ArtifactInput): (r: Outcome) {
    var stored :- StoreBlob(db, a.digest, a.wasm);
    var listed :- InsertArtifact(stored, a.id, Artifact(a.digest, |a.wasm|, a.abi, a.created));
    if ValidMetadata(env, a.metadata) then Success(listed) else Failure(Invalid)
  }

  function PutArtifact(env: Env, db: Db, a: ArtifactInput, now: int): (r: Outcome) {
    if !ValidArtifact(env, a) then Failure(Invalid)
    else
      var added :- AddArtifact(env, db, a);
      InsertAudit(added, "audit_" + a.id, now)
  }

  datatype DeployInput = DeployInput(
    author: string, device: string, app: string, kind: string, access: string,
    source: string, artifact: ArtifactInput, previous: string)

  predicate ValidDeploy(env: Env, i: DeployInput) {
    && env.validId(i.author) && env.validId(i.device) && env.validId(i.app)
    && i.kind in {"tui", "cli", "vm"} && i.access in {"public", "restricted"}
    && i.source != "" && ValidArtifact(env, i.artifact)
  }

  predicate OwnDevice(db: Db, device: string, author: string) {
    device in db.devices && db.devices[device] == Device(author, false)
  }

  predicate Named(apps: map<string, App>, id: string, author: string, name: string) {
    id in apps && apps[id].author == author && apps[id].name == name
  }

  /** The row of `UNIQUE (author_id, name)`. */
  ghost function FindApp(apps: map<string, App>, author: string, name: string): (r: Option<string>)
    ensures r.Some? ==> Named(apps, r.value, author, name)
    ensures r.None? ==> forall id :: !Named(apps, id, author, name)
  {
    if exists id :: Named(apps, id, author, name) then
      var id :| Named(apps, id, author, name);
      Some(id)
    else None
  }

  /** The app a deployment belongs to, or the fresh identifier of one to create. */
  ghost function TargetApp(db: Db, i: DeployInput, freshApp: string): (r: Result<string, Error>) {
    if i.previous != "" then
      if i.previous in db.deployments && Named(db.apps, db.deployments[i.previous].app, i.author, i.app)
      then Success(db.deployments[i.previous].app)
      else Failure(NotFound)
    else
      match FindApp(db.apps, i.author, i.app)
      case Some(id) => Success(id)
      case None => if freshApp in db.apps then Failure(Conflict) else Success(freshApp)
  }

  /** Creates the app, or reconciles the kind and access of an existing one. */
  function SaveApp(db: Db, app: string, i: DeployInput): (r: Db) {
    var suspended := app in db.apps && db.apps[app].suspended;
    db.(apps := db.apps[app := App(i.author, i.app, i.kind, i.access, suspended)])
  }

  /** Drops a replaced deployment nobody runs, then whatever it alone kept. */
  function Retire(db: Db, deployment: string): (r: Outcome) {
    if InUse(db.sessions, deployment) || deployment !in db.deployments then Success(db)
    else
      var artifact := db.deployments[deployment].artifact;
      if artifact !in db.artifacts then Failure(NotFound)
      else
        var dropped :- DeleteDeployment(db, deployment);
        Success(DeleteUnusedBlob(DeleteUnusedArtifact(dropped, artifact), db.artifacts[artifact].digest))
  }

  /** The inserts of a deployment: blob, artifact, deployment row, active pointer. */
  function Place(env: Env, db: Db, app: string, i: DeployInput, deployment: string): (r: Outcome) {
    var added :- AddArtifact(env, db, i.artifact);
    var placed :- InsertDeployment(added, deployment, Deployment(app, i.artifact.id, i.device));
    PointActive(placed, app, deployment)
  }

  /** Everything of a deployment after its app is known. */
  function Install(env: Env, db: Db, app: string, i: DeployInput, deployment: string, now: int): (r: Outcome) {
    var placed :- Place(env, db, app, i, deployment);
    var retired :- if app in db.active && db.active[app] != deployment then Retire(placed, db.active[app]) else Success(placed);
    InsertAudit(retired, "audit_" + deployment, now)
  }

  ghost function Deploy(env: Env, db: Db, i: DeployInput, freshApp: string, deployment: string, now: int): (r: Outcome) {
    if !ValidDeploy(env, i) then Failure(Invalid)
    else if !OwnDevice(db, i.device, i.author) then Failure(NotFound)
    else
      var app :- TargetApp(db, i, freshApp);
      Install(env, SaveApp(db, app, i), app, i, deployment, now)
  }

  function CreateDeployment(env: Env, db: Db, id: string, d: Deployment): (r: Outcome) {
    if !(env.validId(id) && env.validId(d.app) && env.validId(d.artifact) && env.validId(d.device)) then Failure(Invalid)
    else if d.app !in db.apps || d.artifact !in db.artifacts || !OwnDevice(db, d.device, db.apps[d.app].author) then Failure(NotFound)
    else
      var author := db.apps[d.app].author;
      var limit := if author in db.quotas then db.quotas[author].deploymentsPerApp else 0;
      var have := |set x | x in db.deployments && db.deployments[x].app == d.app|;
      if limit > 0 && have >= limit then Failure(OverQuota) else InsertDeployment(db, id, d)
  }

  function Activate(env: Env, db: Db, app: string, deployment: string): (r: Outcome) {
    if !(env.validId(app) && env.validId(deployment)) then Failure(Invalid)
    else if deployment !in db.deployments || db.deployments[deployment].app != app then Failure(NotFound)
    else PointActive(db, app, deployment)
  }

  function SetSuspended(env: Env, db: Db, deployment: string, suspended: bool): (r: Outcome) {
    if !env.validId(deployment) then Failure(Invalid)
    else if deployment !in db.deployments then Failure(NotFound)
    else Success(db.(suspended := if suspended then db.suspended + {deployment} else db.suspended - {deployment}))
  }

  /** The open sessions of one app. */
  function OpenOf(sessions: map<string, Session>, app: string): (r: set<string>) {
    set x | x in sessions && IsOpen(sessions, x) && sessions[x].app == app
  }

  function SessionLimit(db: Db, app: string): (n: int) {
    if app in db.apps && db.apps[app].author in db.quotas then db.quotas[db.apps[app].author].sessions else 0
  }

  /** The author's limit, when positive, is compared with the open sessions of this app alone. */
  predicate AtSessionLimit(db: Db, app: string) {
    SessionLimit(db, app) > 0 && |OpenOf(db.sessions, app)| >= SessionLimit(db, app)
  }

  function StartSession(env: Env, db: Db, id: string, s: Session, identity: string): (r: Outcome) {
    if !(env.validId(id) && env.validId(s.app) && env.validId(s.deployment) && env.validId(s.digest)) || |identity| > 2048 then Failure(Invalid)
    else if !(s.app in db.active && db.active[s.app] == s.deployment && s.app in db.apps && s.deployment in db.deployments
              && db.deployments[s.deployment].app == s.app && db.deployments[s.deployment].artifact in db.artifacts) then Failure(NotFound)
    else if db.apps[s.app].suspended || s.deployment in db.suspended then Failure(IsSuspended)
    else if db.artifacts[db.deployments[s.deployment].artifact].digest != s.digest then Failure(NotFound)
    else if AtSessionLimit(db, s.app) then Failure(OverQuota)
    else if id in db.sessions then Failure(Conflict)
    else Success(db.(sessions := db.sessions[id := s.(ended := None)]))
  }

  function EndSession(env: Env, db: Db, id: string, now: int): (r: Outcome) {
    if !env.validId(id) then Failure(Invalid)
    else if id !in db.sessions then Failure(NotFound)
    else if db.sessions[id].ended.Some? then Success(db)
    else Success(db.(sessions := db.sessions[id := db.sessions[id].(ended := Some(now))]))
  }

  /** The four deletes of a collection, run in an order the code does not fix. */
  datatype Sweep = AuditRows | EndedSessions | OldArtifacts | LooseBlobs

  predicate Expired(s: Session, cutoff: int) {
    s.ended.Some? && s.ended.value < cutoff
  }

  function Unexpired(sessions: map<string, Session>, cutoff: int): (r: map<string, Session>) {
    map id | id in sessions && !Expired(sessions[id], cutoff) :: sessions[id]
  }

  function Wanted(artifacts: map<string, Artifact>, deployments: map<string, Deployment>, cutoff: int): (r: map<string, Artifact>) {
    map id | id in artifacts && (artifacts[id].created >= cutoff || ArtifactUsed(deployments, id)) :: artifacts[id]
  }

  function UsedBlobs(blobs: map<string, Blob>, artifacts: map<string, Artifact>): (r: map<string, Blob>) {
    map d | d in blobs && DigestUsed(artifacts, d) :: blobs[d]
  }

  function SweepOnce(db: Db, q: Sweep, cutoff: int): (r: Db) {
    match q
    case AuditRows => db.(audit := map id | id in db.audit && db.audit[id] >= cutoff :: db.audit[id])
    case EndedSessions => db.(sessions := Unexpired(db.sessions, cutoff))
    case OldArtifacts => db.(artifacts := Wanted(db.artifacts, db.deployments, cutoff))
    case LooseBlobs => db.(blobs := UsedBlobs(db.blobs, db.artifacts))
  }

  /** The size of the table a delete works on. */
  function Rows(db: Db, q: Sweep): (n: nat) {
    match q
    case AuditRows => |db.audit|
    case EndedSessions => |db.sessions|
    case OldArtifacts => |db.artifacts|
    case LooseBlobs => |db.blobs|
  }

  predicate NoRepeats(order: seq<Sweep>) {
    forall i, j :: 0 <= i < j < |order| ==> order[i] != order[j]
  }

  lemma SweepOthers(db: Db, q: Sweep, other: Sweep, cutoff: int)
    requires q != other
    ensures Rows(SweepOnce(db, q, cutoff), other) == Rows(db, other)
  {
    hide ArtifactUsed, DigestUsed, Expired;
  }

  /** Reservations of released handles that have run out. */
  function DropTombstones(db: Db, now: int): (r: Db) {
    db.(tombstones := map h | h in db.tombstones && db.tombstones[h] > now :: db.tombstones[h])
  }

  function Collect(db: Db, order: seq<Sweep>, cutoff: int): (r: Db)
    decreases |order|
  {
    if order == [] then db else Collect(SweepOnce(db, order[0], cutoff), order[1..], cutoff)
  }

  // ----- the resolver

  datatype Runnable = Runnable(app: string, deployment: string, artifact: string, digest: string, wasm: bytes)

  /** The reads of `ResolveRunnable` once the app row is chosen. */
  function ResolveApp(env: Env, db: Db, app: string): (r: Result<Runnable, Error>) {
    if app !in db.apps || app !in db.active then Failure(NotFound)
    else
      var d := db.active[app];
      if d !in db.deployments || db.deployments[d].app != app || db.deployments[d].artifact !in db.artifacts then Failure(NotFound)
      else if db.apps[app].suspended || d in db.suspended then Failure(IsSuspended)
      else
        var id := db.deployments[d].artifact;
        var a := db.artifacts[id];
        if a.digest !in db.blobs then Failure(NotFound)
        else
          var wasm := db.blobs[a.digest].wasm;
          if |wasm| != a.size || env.digest(wasm) != a.digest then Failure(Integrity)
          else Success(Runnable(app, d, id, a.digest, wasm))
  }

  ghost function ResolveRunnable(env: Env, db: Db, author: string, name: string): (r: Result<Runnable, Error>) {
    if !env.validId(author) then Failure(Invalid)
    else
      match FindApp(db.apps, author, name)
      case None => Failure(NotFound)
      case Some(app) => ResolveApp(env, db, app)
  }

  // ----- the invariant, one link at a time

  type Blobs = map<string, Blob>
  type Artifacts = map<string, Artifact>
  type Deployments = map<string, Deployment>

  ghost predicate BlobsSound(env: Env, blobs: Blobs) {
    forall d :: d in blobs ==> blobs[d].size == |blobs[d].wasm| && env.digest(blobs[d].wasm) == d
  }

  ghost predicate HasBlob(a: Artifact, blobs: Blobs) {
    a.digest in blobs && blobs[a.digest].size == a.size
  }

  ghost predicate ArtifactsLinked(artifacts: Artifacts, blobs: Blobs) {
    forall id :: id in artifacts ==> HasBlob(artifacts[id], blobs)
  }

  ghost predicate DeploymentsLinked(deployments: Deployments, artifacts: Artifacts, apps: map<string, App>) {
    forall d :: d in deployments ==> deployments[d].artifact in artifacts && deployments[d].app in apps
  }

  ghost predicate ActiveLinked(active: map<string, string>, deployments: Deployments) {
    forall app :: app in active ==> active[app] in deployments && deployments[active[app]].app == app
  }

  /** The deployment row a session runs, with the digest it was started on. */
  ghost predicate Runs(s: Session, deployments: Deployments, artifacts: Artifacts) {
    && s.deployment in deployments
    && deployments[s.deployment].app == s.app
    && deployments[s.deployment].artifact in artifacts
    && artifacts[deployments[s.deployment].artifact].digest == s.digest
  }

  ghost predicate SessionsLinked(sessions: map<string, Session>, deployments: Deployments, artifacts: Artifacts) {
    forall s :: IsOpen(sessions, s) ==> Runs(sessions[s], deployments, artifacts)
  }

  ghost predicate NamesUnique(apps: map<string, App>) {
    forall a, b, author, name :: Named(apps, a, author, name) && Named(apps, b, author, name) ==> a == b
  }

  ghost predicate Inv(env: Env, db: Db) {
    && BlobsSound(env, db.blobs)
    && ArtifactsLinked(db.artifacts, db.blobs)
    && DeploymentsLinked(db.deployments, db.artifacts, db.apps)
    && ActiveLinked(db.active, db.deployments)
    && SessionsLinked(db.sessions, db.deployments, db.artifacts)
    && NamesUnique(db.apps)
    && db.suspended <= db.deployments.Keys
  }

  // ----- each statement keeps the invariant under the guard its transaction gives it

  lemma StoreBlobKeeps(env: Env, db: Db, digest: string, wasm: bytes)
    requires Inv(env, db) && digest == env.digest(wasm)
    ensures StoreBlob(db, digest, wasm).Success? ==>
      Inv(env, StoreBlob(db, digest, wasm).value)
      && StoreBlob(db, digest, wasm).value == db.(blobs := db.blobs[digest := Blob(|wasm|, wasm)])
  {
    if StoreBlob(db, digest, wasm).Success? {
      var r := StoreBlob(db, digest, wasm).value;
      if digest in db.blobs {
        assert r.blobs == db.blobs[digest := Blob(|wasm|, wasm)];
        assert r == db.(blobs := r.blobs);
      } else {
        assert r == db.(blobs := db.blobs[digest := Blob(|wasm|, wasm)]);
      }
    }
  }

  lemma InsertArtifactKeeps(env: Env, db: Db, id: string, a: Artifact)
    requires Inv(env, db) && a.digest in db.blobs
    ensures InsertArtifact(db, id, a).Success? ==> Inv(env, InsertArtifact(db, id, a).value)
  {
    hide BlobsSound, ActiveLinked, NamesUnique;
    if InsertArtifact(db, id, a).Success? {
      var artifacts := db.artifacts[id := a];
      assert DeploymentsLinked(db.deployments, artifacts, db.apps);
      assert SessionsLinked(db.sessions, db.deployments, artifacts);
    }
  }

  lemma AddArtifactKeeps(env: Env, db: Db, a: ArtifactInput)
    requires Inv(env, db) && ValidArtifact(env, a) && AddArtifact(env, db, a).Success?
    ensures Inv(env, AddArtifact(env, db, a).value)
    ensures AddArtifact(env, db, a).value
         == db.(blobs := db.blobs[a.digest := Blob(|a.wasm|, a.wasm)],
                artifacts := db.artifacts[a.id := Artifact(a.digest, |a.wasm|, a.abi, a.created)])
    ensures a.id !in db.artifacts
    ensures a.digest in db.blobs ==> db.blobs[a.digest] == Blob(|a.wasm|, a.wasm)
  {
    hide Inv;
    StoreBlobKeeps(env, db, a.digest, a.wasm);
    InsertArtifactKeeps(env, StoreBlob(db, a.digest, a.wasm).value, a.id, Artifact(a.digest, |a.wasm|, a.abi, a.created));
  }

  lemma InsertDeploymentKeeps(env: Env, db: Db, id: string, d: Deployment)
    requires Inv(env, db)
    ensures InsertDeployment(db, id, d).Success? ==> Inv(env, InsertDeployment(db, id, d).value)
  {
    hide BlobsSound, ArtifactsLinked, NamesUnique;
  }

  lemma PointActiveKeeps(env: Env, db: Db, app: string, deployment: string)
    requires Inv(env, db)
    ensures PointActive(db, app, deployment).Success? ==> Inv(env, PointActive(db, app, deployment).value)
  {
    hide BlobsSound, ArtifactsLinked, DeploymentsLinked, SessionsLinked, NamesUnique;
  }

  lemma DeleteDeploymentKeeps(env: Env, db: Db, id: string)
    requires Inv(env, db) && !InUse(db.sessions, id)
    ensures DeleteDeployment(db, id).Success? ==> Inv(env, DeleteDeployment(db, id).value)
  {
    hide BlobsSound, ArtifactsLinked, NamesUnique;
  }

  lemma DeleteUnusedArtifactKeeps(env: Env, db: Db, id: string)
    requires Inv(env, db)
    ensures Inv(env, DeleteUnusedArtifact(db, id))
  {
    hide BlobsSound, ActiveLinked, NamesUnique;
  }

  lemma DeleteUnusedBlobKeeps(env: Env, db: Db, digest: string)
    requires Inv(env, db)
    ensures Inv(env, DeleteUnusedBlob(db, digest))
  {
    hide ActiveLinked, SessionsLinked, DeploymentsLinked, NamesUnique;
  }

  /** Every blob has an artifact: nothing is stored that no collection would keep. */
  ghost predicate Tidy(db: Db) {
    forall d :: d in db.blobs ==> DigestUsed(db.artifacts, d)
  }

  /** The tables a retirement never touches. */
  ghost predicate Unretired(db: Db, r: Db) {
    && r.apps == db.apps && r.devices == db.devices && r.quotas == db.quotas
    && r.active == db.active && r.sessions == db.sessions && r.audit == db.audit
  }

  ghost predicate Submap<T>(small: map<string, T>, big: map<string, T>) {
    forall k :: k in small ==> k in big && small[k] == big[k]
  }

  ghost predicate Agree<T>(a: map<string, T>, b: map<string, T>) {
    forall k :: k in a && k in b ==> a[k] == b[k]
  }

  /** Rows were only deleted from the deployment tables. */
  ghost predicate Shrunk(db: Db, r: Db) {
    && Unretired(db, r) && r.suspended <= db.suspended
    && Submap(r.deployments, db.deployments) && Submap(r.artifacts, db.artifacts) && Submap(r.blobs, db.blobs)
  }

  ghost predicate Shared(db: Db, d: string)
    requires d in db.deployments
  {
    exists x :: x in db.deployments && x != d && db.deployments[x].artifact == db.deployments[d].artifact
  }

  lemma RetireKeeps(env: Env, db: Db, d: string)
    requires Inv(env, db) && d in db.deployments
    requires forall app :: app in db.active ==> db.active[app] != d
    ensures Retire(db, d).Success? && Inv(env, Retire(db, d).value)
  {
    if !InUse(db.sessions, d) {
      var artifact := db.deployments[d].artifact;
      assert artifact in db.artifacts && DeleteDeployment(db, d).Success?;
      hide Inv, ArtifactUsed, DigestUsed, InUse, DeleteUnusedBlob, DeleteUnusedArtifact;
      var dropped := DeleteDeployment(db, d).value;
      DeleteDeploymentKeeps(env, db, d);
      DeleteUnusedArtifactKeeps(env, dropped, artifact);
      DeleteUnusedBlobKeeps(env, DeleteUnusedArtifact(dropped, artifact), db.artifacts[artifact].digest);
    }
  }

  /**
   Retiring a replaced deployment deletes that row unless a session runs it, its
   artifact unless another deployment uses it, the artifact's blob unless another
   artifact uses it, and nothing else; so it leaves no loose blob behind.
   */
  lemma RetireExact(db: Db, d: string, r: Db)
    requires d in db.deployments && db.deployments[d].artifact in db.artifacts && Retire(db, d) == Success(r)
    ensures Unretired(db, r)
    ensures r.deployments == if InUse(db.sessions, d) then db.deployments else db.deployments - {d}
    ensures r.suspended == if InUse(db.sessions, d) then db.suspended else db.suspended - {d}
    ensures r.artifacts == if InUse(db.sessions, d) || Shared(db, d) then db.artifacts else db.artifacts - {db.deployments[d].artifact}
    ensures r.blobs == if InUse(db.sessions, d) || DigestUsed(r.artifacts, db.artifacts[db.deployments[d].artifact].digest)
                       then db.blobs else db.blobs - {db.artifacts[db.deployments[d].artifact].digest}
  {
    hide *;
    RetireRows(db, d, r);
    RetireArtifacts(db, d, r);
    RetireBlobs(db, d, r);
  }

  /** The tables after a retirement that deletes. */
  ghost function Retired(db: Db, d: string): (r: Db)
    requires d in db.deployments && db.deployments[d].artifact in db.artifacts
  {
    var artifact := db.deployments[d].artifact;
    var artifacts := if Shared(db, d) then db.artifacts else db.artifacts - {artifact};
    var digest := db.artifacts[artifact].digest;
    db.(deployments := db.deployments - {d}, suspended := db.suspended - {d}, artifacts := artifacts,
        blobs := if DigestUsed(artifacts, digest) then db.blobs else db.blobs - {digest})
  }

  lemma RetireForm(db: Db, d: string, r: Db)
    requires d in db.deployments && db.deployments[d].artifact in db.artifacts && Retire(db, d) == Success(r)
    ensures r == if InUse(db.sessions, d) then db else Retired(db, d)
  {
    hide InUse, DigestUsed, ArtifactUsed, Shared;
    if !InUse(db.sessions, d) {
      RemainderShared(db, d);
    }
  }

  lemma RetiredTables(db: Db, d: string)
    requires d in db.deployments && db.deployments[d].artifact in db.artifacts
    ensures var r := Retired(db, d); var artifact := db.deployments[d].artifact; var digest := db.artifacts[artifact].digest;
      && r.apps == db.apps && r.devices == db.devices && r.quotas == db.quotas
      && r.active == db.active && r.sessions == db.sessions && r.audit == db.audit
      && r.deployments == db.deployments - {d} && r.suspended == db.suspended - {d}
      && r.artifacts == (if Shared(db, d) then db.artifacts else db.artifacts - {artifact})
      && r.blobs == (if DigestUsed(r.artifacts, digest) then db.blobs else db.blobs - {digest})
  {
    hide Shared, DigestUsed;
  }

  lemma RetireRows(db: Db, d: string, r: Db)
    requires d in db.deployments && db.deployments[d].artifact in db.artifacts && Retire(db, d) == Success(r)
    ensures Unretired(db, r)
    ensures r.deployments == if InUse(db.sessions, d) then db.deployments else db.deployments - {d}
    ensures r.suspended == if InUse(db.sessions, d) then db.suspended else db.suspended - {d}
  {
    hide Retire, InUse, DigestUsed, Shared, Retired;
    RetireForm(db, d, r);
    RetiredTables(db, d);
  }

  lemma RetireArtifacts(db: Db, d: string, r: Db)
    requires d in db.deployments && db.deployments[d].artifact in db.artifacts && Retire(db, d) == Success(r)
    ensures r.artifacts == if InUse(db.sessions, d) || Shared(db, d) then db.artifacts else db.artifacts - {db.deployments[d].artifact}
  {
    hide Retire, InUse, DigestUsed, Shared, Retired;
    RetireForm(db, d, r);
    RetiredTables(db, d);
  }

  lemma RetireBlobs(db: Db, d: string, r: Db)
    requires d in db.deployments && db.deployments[d].artifact in db.artifacts && Retire(db, d) == Success(r)
    ensures r.blobs == if InUse(db.sessions, d) || DigestUsed(r.artifacts, db.artifacts[db.deployments[d].artifact].digest)
                       then db.blobs else db.blobs - {db.artifacts[db.deployments[d].artifact].digest}
  {
    hide Retire, InUse, DigestUsed, Shared, Retired;
    RetireForm(db, d, r);
    RetiredTables(db, d);
  }

  lemma RetireShrinks(db: Db, d: string, r: Db)
    requires d in db.deployments && db.deployments[d].artifact in db.artifacts && Retire(db, d) == Success(r)
    ensures Shrunk(db, r)
  {
    hide Retire, InUse, DigestUsed, Shared, Unretired;
    RetireExact(db, d, r);
  }

  lemma RemainderShared(db: Db, d: string)
    requires d in db.deployments
    ensures ArtifactUsed(db.deployments - {d}, db.deployments[d].artifact) <==> Shared(db, d)
  {
    if Shared(db, d) {
      var x :| x in db.deployments && x != d && db.deployments[x].artifact == db.deployments[d].artifact;
      assert x in db.deployments - {d};
    }
  }

  lemma StillUsed(was: map<string, Artifact>, now: map<string, Artifact>, gone: string, digest: string)
    requires DigestUsed(was, digest) && (forall id :: id in was && id != gone ==> id in now && now[id] == was[id])
    requires gone in was ==> was[gone].digest != digest
    ensures DigestUsed(now, digest)
  {
    var id :| id in was && was[id].digest == digest;
    assert id in now && now[id].digest == digest;
  }

  lemma RetireTidy(db: Db, d: string, r: Db)
    requires d in db.deployments && db.deployments[d].artifact in db.artifacts && Retire(db, d) == Success(r) && Tidy(db)
    ensures Tidy(r)
  {
    hide Retire, Shared, Shrunk, InUse;
    RetireExact(db, d, r);
    var artifact := db.deployments[d].artifact;
    forall b | b in r.blobs ensures DigestUsed(r.artifacts, b) {
      if r.artifacts != db.artifacts && b != db.artifacts[artifact].digest {
        StillUsed(db.artifacts, r.artifacts, artifact, b);
      }
    }
  }

  lemma SaveAppKeeps(env: Env, db: Db, app: string, i: DeployInput)
    requires Inv(env, db)
    requires Named(db.apps, app, i.author, i.app) || (app !in db.apps && FindApp(db.apps, i.author, i.app).None?)
    ensures Inv(env, SaveApp(db, app, i)) && Named(SaveApp(db, app, i).apps, app, i.author, i.app)
  {
    var r := SaveApp(db, app, i);
    forall a, b, author, name | Named(r.apps, a, author, name) && Named(r.apps, b, author, name) ensures a == b {
      assert Named(db.apps, a, author, name) || a == app;
      assert Named(db.apps, b, author, name) || b == app;
    }
  }

  // ----- a whole deployment

  lemma PlaceKeeps(env: Env, db: Db, app: string, i: DeployInput, deployment: string, r: Db)
    requires Inv(env, db) && ValidArtifact(env, i.artifact) && Place(env, db, app, i, deployment) == Success(r)
    ensures Inv(env, r)
    ensures r.blobs == db.blobs[i.artifact.digest := Blob(|i.artifact.wasm|, i.artifact.wasm)]
    ensures r.artifacts == db.artifacts[i.artifact.id := Artifact(i.artifact.digest, |i.artifact.wasm|, i.artifact.abi, i.artifact.created)]
    ensures r.deployments == db.deployments[deployment := Deployment(app, i.artifact.id, i.device)]
    ensures r.active == db.active[app := deployment] && r.apps == db.apps && r.sessions == db.sessions && r.suspended == db.suspended
    ensures deployment !in db.deployments && i.artifact.id !in db.artifacts
    ensures i.artifact.digest in db.blobs ==> db.blobs[i.artifact.digest] == Blob(|i.artifact.wasm|, i.artifact.wasm)
  {
    hide Inv, AddArtifact, ValidArtifact;
    var added := AddArtifact(env, db, i.artifact).value;
    AddArtifactKeeps(env, db, i.artifact);
    var d := Deployment(app, i.artifact.id, i.device);
    InsertDeploymentKeeps(env, added, deployment, d);
    var placed := InsertDeployment(added, deployment, d).value;
    PointActiveKeeps(env, placed, app, deployment);
  }

  /** The deployment being replaced is no app's active one any more. */
  lemma ReplacedIsInactive(env: Env, db: Db, app: string, deployment: string, r: Db)
    requires Inv(env, db) && app in db.active && deployment !in db.deployments
    requires r.active == db.active[app := deployment] && db.active[app] in r.deployments
    ensures forall other :: other in r.active ==> r.active[other] != db.active[app]
  {
    forall other | other in r.active ensures r.active[other] != db.active[app] {
      if other != app {
        assert db.deployments[db.active[other]].app == other;
      }
    }
  }

  lemma RetireReplaced(env: Env, db: Db, d: string, latest: string)
    requires Inv(env, db) && d in db.deployments && latest in db.deployments && d != latest
    requires forall app :: app in db.active ==> db.active[app] != d
    ensures Retire(db, d).Success? && Inv(env, Retire(db, d).value) && Replaced(db, d, latest, Retire(db, d).value)
  {
    assert db.deployments[d].artifact in db.artifacts;
    hide Retire, Inv, Shared, InUse, DigestUsed, Shrunk;
    RetireKeeps(env, db, d);
    RetireExact(db, d, Retire(db, d).value);
    RetireShrinks(db, d, Retire(db, d).value);
  }

  lemma AuditKeeps(env: Env, db: Db, id: string, at: int)
    requires Inv(env, db)
    ensures InsertAudit(db, id, at).Success? ==> Inv(env, InsertAudit(db, id, at).value)
  {
    hide BlobsSound, ArtifactsLinked, DeploymentsLinked, ActiveLinked, SessionsLinked, NamesUnique;
  }

  /** The states a deployment passes through: rows placed, the replaced one retired. */
  lemma InstallStates(env: Env, db: Db, app: string, i: DeployInput, deployment: string, now: int, r: Db)
    returns (placed: Db, retired: Db)
    requires Inv(env, db) && ValidArtifact(env, i.artifact) && Install(env, db, app, i, deployment, now) == Success(r)
    ensures Place(env, db, app, i, deployment) == Success(placed) && Inv(env, placed)
    ensures if app in db.active then Replaced(placed, db.active[app], deployment, retired) else retired == placed
    ensures Inv(env, retired) && InsertAudit(retired, "audit_" + deployment, now) == Success(r) && Inv(env, r)
  {
    hide Place, Retire, Shared, InUse, DigestUsed, ValidArtifact;
    placed := Place(env, db, app, i, deployment).value;
    PlaceKeeps(env, db, app, i, deployment, placed);
    retired := placed;
    if app in db.active {
      var d := db.active[app];
      assert d in placed.deployments && d != deployment;
      ReplacedIsInactive(env, db, app, deployment, placed);
      RetireReplaced(env, placed, d, deployment);
      retired := Retire(placed, d).value;
    }
    hide Inv;
    AuditKeeps(env, retired, "audit_" + deployment, now);
  }

  ghost predicate Replaced(placed: Db, d: string, latest: string, retired: Db) {
    && d in placed.deployments && d != latest && placed.deployments[d].artifact in placed.artifacts
    && Retire(placed, d) == Success(retired) && Shrunk(placed, retired) && latest in retired.deployments
  }

  /** Rows present before and after a step are the same rows. */
  ghost predicate Stable(db: Db, r: Db) {
    Agree(db.deployments, r.deployments) && Agree(db.artifacts, r.artifacts) && Agree(db.blobs, r.blobs)
  }

  lemma AgreeAfterDeletes<T>(a: map<string, T>, b: map<string, T>, c: map<string, T>)
    requires Submap(a, b) && Submap(c, b)
    ensures Agree(a, c)
  {}

  /**
   What a deployment leaves behind: the active pointer on a new, unsuspended row for
   exactly the uploaded artifact and bytes.
   */
  lemma InstallEffect(env: Env, db: Db, app: string, i: DeployInput, deployment: string, now: int, r: Db)
    requires Inv(env, db) && ValidArtifact(env, i.artifact) && Install(env, db, app, i, deployment, now) == Success(r)
    ensures Inv(env, r)
    ensures r.active == db.active[app := deployment] && r.apps == db.apps && r.sessions == db.sessions
    ensures deployment !in db.deployments && deployment !in r.suspended
    ensures deployment in r.deployments && r.deployments[deployment] == Deployment(app, i.artifact.id, i.device)
    ensures i.artifact.id in r.artifacts && r.artifacts[i.artifact.id].digest == i.artifact.digest
    ensures i.artifact.digest in r.blobs && r.blobs[i.artifact.digest].wasm == i.artifact.wasm
  {
    hide Retire, Install, Shared, InUse, DigestUsed, ValidArtifact;
    var placed, retired := InstallStates(env, db, app, i, deployment, now, r);
    PlaceKeeps(env, db, app, i, deployment, placed);
    hide Place, ActiveLinked, SessionsLinked, NamesUnique, BlobsSound;
    assert Shrunk(placed, retired);
    assert deployment in retired.deployments;
    assert HasBlob(retired.artifacts[i.artifact.id], retired.blobs);
  }

  lemma InstallStable(env: Env, db: Db, app: string, i: DeployInput, deployment: string, now: int, r: Db)
    requires Inv(env, db) && ValidArtifact(env, i.artifact) && Install(env, db, app, i, deployment, now) == Success(r)
    ensures Stable(db, r)
  {
    hide Retire, Install, Shared, InUse, DigestUsed, ValidArtifact, Inv, Place;
    var placed, retired := InstallStates(env, db, app, i, deployment, now, r);
    PlaceKeeps(env, db, app, i, deployment, placed);
    assert Submap(db.blobs, placed.blobs) && Submap(db.artifacts, placed.artifacts) && Submap(db.deployments, placed.deployments);
    assert Submap(retired.blobs, placed.blobs) && Submap(retired.artifacts, placed.artifacts) && Submap(retired.deployments, placed.deployments);
    hide Submap, Replaced, Agree;
    AgreeAfterDeletes(db.deployments, placed.deployments, retired.deployments);
    AgreeAfterDeletes(db.artifacts, placed.artifacts, retired.artifacts);
    AgreeAfterDeletes(db.blobs, placed.blobs, retired.blobs);
  }

  lemma DeploymentsAfter(env: Env, db: Db, app: string, i: DeployInput, deployment: string, now: int, r: Db)
    requires Inv(env, db) && ValidArtifact(env, i.artifact) && Install(env, db, app, i, deployment, now) == Success(r)
    ensures var all := db.deployments[deployment := Deployment(app, i.artifact.id, i.device)];
      r.deployments == if app in db.active && !InUse(db.sessions, db.active[app]) then all - {db.active[app]} else all
  {
    hide Retire, Install, Shared, InUse, DigestUsed, ValidArtifact, Place, Inv, Shrunk;
    var placed, retired := InstallStates(env, db, app, i, deployment, now, r);
    PlaceKeeps(env, db, app, i, deployment, placed);
    if app in db.active {
      RetireRows(placed, db.active[app], retired);
    }
  }

  /** One row goes exactly when the replaced deployment had no open session. */
  lemma InstallDeletes(env: Env, db: Db, app: string, i: DeployInput, deployment: string, now: int, r: Db)
    requires Inv(env, db) && ValidArtifact(env, i.artifact) && Install(env, db, app, i, deployment, now) == Success(r)
    ensures forall x :: x in db.deployments && x !in r.deployments <==> app in db.active && x == db.active[app] && !InUse(db.sessions, x)
  {
    assert app in db.active ==> db.active[app] in db.deployments;
    hide *;
    FreshRow(env, db, app, i, deployment, now, r);
    DeploymentsAfter(env, db, app, i, deployment, now, r);
  }

  lemma FreshRow(env: Env, db: Db, app: string, i: DeployInput, deployment: string, now: int, r: Db)
    requires Inv(env, db) && ValidArtifact(env, i.artifact) && Install(env, db, app, i, deployment, now) == Success(r)
    ensures deployment !in db.deployments
  {
    hide Inv, ValidArtifact, Retire, AddArtifact, PointActive, InsertAudit;
    AddArtifactKeeps(env, db, i.artifact);
  }

  /** A deployment stores no blob that nothing refers to, and leaves none behind. */
  lemma InstallTidy(env: Env, db: Db, app: string, i: DeployInput, deployment: string, now: int, r: Db)
    requires Inv(env, db) && ValidArtifact(env, i.artifact) && Install(env, db, app, i, deployment, now) == Success(r) && Tidy(db)
    ensures Tidy(r)
  {
    hide Retire, Install, Shared, InUse, DigestUsed, ValidArtifact, Inv, Place, Shrunk;
    var placed, retired := InstallStates(env, db, app, i, deployment, now, r);
    PlaceKeeps(env, db, app, i, deployment, placed);
    assert Tidy(placed) by {
      forall b | b in placed.blobs ensures DigestUsed(placed.artifacts, b) {
        if b == i.artifact.digest {
          UsedBy(placed.artifacts, i.artifact.id);
        } else {
          StillUsed(db.artifacts, placed.artifacts, i.artifact.id, b);
        }
      }
    }
    if app in db.active {
      RetireTidy(placed, db.active[app], retired);
    }
  }

  lemma UsedBy(artifacts: Artifacts, id: string)
    requires id in artifacts
    ensures DigestUsed(artifacts, artifacts[id].digest)
  {}

  lemma TargetIsSafe(env: Env, db: Db, i: DeployInput, freshApp: string, app: string)
    requires Inv(env, db) && TargetApp(db, i, freshApp) == Success(app)
    ensures Inv(env, SaveApp(db, app, i)) && Named(SaveApp(db, app, i).apps, app, i.author, i.app)
    ensures freshApp !in db.apps || app in db.apps
  {
    hide Inv, NamesUnique;
    SaveAppKeeps(env, db, app, i);
  }

  /** The outcome of a committed deployment, from the app's point of view. */
  lemma DeployEffect(env: Env, db: Db, i: DeployInput, freshApp: string, deployment: string, now: int, r: Db) returns (app: string)
    requires Inv(env, db) && Deploy(env, db, i, freshApp, deployment, now) == Success(r)
    ensures Inv(env, r) && Stable(db, r)
    ensures TargetApp(db, i, freshApp) == Success(app)
    ensures Named(r.apps, app, i.author, i.app) && r.apps[app].suspended == (app in db.apps && db.apps[app].suspended)
    ensures r.active == db.active[app := deployment] && r.sessions == db.sessions && deployment !in db.deployments
    ensures deployment in r.deployments && deployment !in r.suspended
    ensures r.deployments[deployment] == Deployment(app, i.artifact.id, i.device)
    ensures i.artifact.id in r.artifacts && r.artifacts[i.artifact.id].digest == i.artifact.digest
    ensures i.artifact.digest in r.blobs && r.blobs[i.artifact.digest].wasm == i.artifact.wasm
    ensures forall x :: x in db.deployments && x !in r.deployments <==> app in db.active && x == db.active[app] && !InUse(db.sessions, x)
  {
    hide Inv, Install, TargetApp, InUse, ValidArtifact, Stable;
    app := TargetApp(db, i, freshApp).value;
    TargetIsSafe(env, db, i, freshApp, app);
    var saved := SaveApp(db, app, i);
    InstallEffect(env, saved, app, i, deployment, now, r);
    InstallStable(env, saved, app, i, deployment, now, r);
    InstallDeletes(env, saved, app, i, deployment, now, r);
    SavedStable(db, app, i, r);
  }

  lemma SavedStable(db: Db, app: string, i: DeployInput, r: Db)
    requires Stable(SaveApp(db, app, i), r)
    ensures Stable(db, r)
  {}

  // ----- collection

  /** What one delete of a collection may do. */
  ghost predicate Swept(db: Db, r: Db) {
    && r.apps == db.apps && r.deployments == db.deployments && r.active == db.active && r.suspended == db.suspended
    && Submap(r.artifacts, db.artifacts) && Submap(r.blobs, db.blobs) && Submap(r.sessions, db.sessions)
    && (forall s :: IsOpen(db.sessions, s) ==> s in r.sessions)
  }

  lemma UnexpiredLinked(sessions: map<string, Session>, deployments: Deployments, artifacts: Artifacts, cutoff: int)
    requires SessionsLinked(sessions, deployments, artifacts)
    ensures SessionsLinked(Unexpired(sessions, cutoff), deployments, artifacts) && Submap(Unexpired(sessions, cutoff), sessions)
    ensures forall s :: IsOpen(sessions, s) ==> s in Unexpired(sessions, cutoff)
  {
    hide Runs;
    assert forall s :: IsOpen(Unexpired(sessions, cutoff), s) ==> IsOpen(sessions, s);
  }

  lemma WantedLinked(db: Db, cutoff: int)
    requires DeploymentsLinked(db.deployments, db.artifacts, db.apps) && SessionsLinked(db.sessions, db.deployments, db.artifacts)
    requires ArtifactsLinked(db.artifacts, db.blobs)
    ensures var kept := Wanted(db.artifacts, db.deployments, cutoff);
      && DeploymentsLinked(db.deployments, kept, db.apps) && SessionsLinked(db.sessions, db.deployments, kept)
      && ArtifactsLinked(kept, db.blobs) && Submap(kept, db.artifacts)
  {
    hide HasBlob;
    forall d | d in db.deployments ensures db.deployments[d].artifact in Wanted(db.artifacts, db.deployments, cutoff) {
      assert ArtifactUsed(db.deployments, db.deployments[d].artifact);
    }
  }

  lemma UsedBlobsLinked(env: Env, blobs: Blobs, artifacts: Artifacts)
    requires BlobsSound(env, blobs) && ArtifactsLinked(artifacts, blobs)
    ensures BlobsSound(env, UsedBlobs(blobs, artifacts)) && ArtifactsLinked(artifacts, UsedBlobs(blobs, artifacts))
    ensures Submap(UsedBlobs(blobs, artifacts), blobs)
  {
    forall id | id in artifacts ensures HasBlob(artifacts[id], UsedBlobs(blobs, artifacts)) {
      assert DigestUsed(artifacts, artifacts[id].digest);
    }
    hide DigestUsed;
    BlobsStaySound(env, blobs, UsedBlobs(blobs, artifacts));
  }

  lemma SubmapItself<T>(m: map<string, T>)
    ensures Submap(m, m)
  {}

  lemma SweepKeeps(env: Env, db: Db, q: Sweep, cutoff: int)
    requires Inv(env, db)
    ensures Inv(env, SweepOnce(db, q, cutoff)) && Swept(db, SweepOnce(db, q, cutoff))
  {
    hide BlobsSound, ArtifactsLinked, DeploymentsLinked, ActiveLinked, SessionsLinked, NamesUnique, Submap, Unexpired, Wanted, UsedBlobs;
    SubmapItself(db.sessions);
    SubmapItself(db.artifacts);
    SubmapItself(db.blobs);
    UnexpiredLinked(db.sessions, db.deployments, db.artifacts, cutoff);
    WantedLinked(db, cutoff);
    UsedBlobsLinked(env, db.blobs, db.artifacts);
  }

  lemma BlobsStaySound(env: Env, blobs: Blobs, rest: Blobs)
    requires BlobsSound(env, blobs) && Submap(rest, blobs)
    ensures BlobsSound(env, rest)
  {}

  lemma {:induction false} CollectKeeps(env: Env, db: Db, order: seq<Sweep>, cutoff: int)
    requires Inv(env, db)
    ensures Inv(env, Collect(db, order, cutoff)) && Swept(db, Collect(db, order, cutoff))
    decreases |order|
  {
    hide Inv, SweepOnce;
    if order != [] {
      SweepKeeps(env, db, order[0], cutoff);
      CollectKeeps(env, SweepOnce(db, order[0], cutoff), order[1..], cutoff);
    }
  }

  lemma TombstonesKeep(env: Env, db: Db, now: int)
    requires Inv(env, db)
    ensures Inv(env, DropTombstones(db, now))
  {
    hide BlobsSound, ArtifactsLinked, DeploymentsLinked, ActiveLinked, SessionsLinked, NamesUnique;
  }

  // ----- runs

  datatype Step =
    | Put(artifact: ArtifactInput, now: int)
    | Deployed(input: DeployInput, freshApp: string, deployment: string, now: int)
    | Create(id: string, row: Deployment)
    | Activated(app: string, deployment: string)
    | Suspend(deployment: string, on: bool)
    | Start(id: string, session: Session, identity: string)
    | End(id: string, now: int)
    | Gc(order: seq<Sweep>, cutoff: int, now: int)
    | Accounts(devices: map<string, Device>, quotas: map<string, Quota>)

  /** The body of each transaction. `Accounts` is any change to devices and quotas. */
  ghost function Attempt(env: Env, db: Db, step: Step): (r: Outcome) {
    match step
    case Put(a, now) => PutArtifact(env, db, a, now)
    case Deployed(i, freshApp, deployment, now) => Deploy(env, db, i, freshApp, deployment, now)
    case Create(id, row) => CreateDeployment(env, db, id, row)
    case Activated(app, deployment) => Activate(env, db, app, deployment)
    case Suspend(deployment, on) => SetSuspended(env, db, deployment, on)
    case Start(id, session, identity) => StartSession(env, db, id, session, identity)
    case End(id, now) => EndSession(env, db, id, now)
    case Gc(order, cutoff, now) => Success(DropTombstones(Collect(db, order, cutoff), now))
    case Accounts(devices, quotas) => Success(db.(devices := devices, quotas := quotas))
  }

  /** `mutate`: an error in the body or at commit rolls the whole transaction back. */
  function Mutate(db: Db, body: Outcome, commits: bool): (r: Db) {
    if body.Success? && commits then body.value else db
  }

  datatype Event = Event(step: Step, commits: bool)

  ghost function Run(env: Env, db: Db, events: seq<Event>): (r: Db)
    decreases |events|
  {
    if events == [] then db
    else Run(env, Mutate(db, Attempt(env, db, events[0].step), events[0].commits), events[1..])
  }

  lemma PutKeeps(env: Env, db: Db, a: ArtifactInput, now: int, r: Db)
    requires Inv(env, db) && PutArtifact(env, db, a, now) == Success(r)
    ensures Inv(env, r) && Stable(db, r) && r.sessions == db.sessions && r.deployments == db.deployments && r.active == db.active
  {
    hide Inv, AddArtifact, ValidArtifact;
    AddArtifactKeeps(env, db, a);
    AuditKeeps(env, AddArtifact(env, db, a).value, "audit_" + a.id, now);
  }

  lemma SessionStartKeeps(env: Env, db: Db, id: string, s: Session, identity: string, r: Db)
    requires Inv(env, db) && StartSession(env, db, id, s, identity) == Success(r)
    ensures Inv(env, r) && id !in db.sessions && r == db.(sessions := db.sessions[id := s.(ended := None)])
  {
    hide BlobsSound, ArtifactsLinked, DeploymentsLinked, ActiveLinked, NamesUnique;
    assert Runs(s, db.deployments, db.artifacts);
  }

  lemma SessionEndKeeps(env: Env, db: Db, id: string, now: int, r: Db)
    requires Inv(env, db) && EndSession(env, db, id, now) == Success(r)
    ensures Inv(env, r) && r == db.(sessions := r.sessions)
    ensures forall s :: s in db.sessions && s != id ==> s in r.sessions && r.sessions[s] == db.sessions[s]
  {
    hide BlobsSound, ArtifactsLinked, DeploymentsLinked, ActiveLinked, NamesUnique;
    assert forall s :: IsOpen(r.sessions, s) ==> IsOpen(db.sessions, s) && r.sessions[s] == db.sessions[s];
  }

  lemma CreateKeeps(env: Env, db: Db, id: string, row: Deployment, r: Db)
    requires Inv(env, db) && CreateDeployment(env, db, id, row) == Success(r)
    ensures Inv(env, r) && id !in db.deployments && r == db.(deployments := db.deployments[id := row])
  {
    hide Inv;
    InsertDeploymentKeeps(env, db, id, row);
  }

  lemma ActivateKeeps(env: Env, db: Db, app: string, deployment: string, r: Db)
    requires Inv(env, db) && Activate(env, db, app, deployment) == Success(r)
    ensures Inv(env, r) && r == db.(active := db.active[app := deployment])
  {
    hide Inv;
    PointActiveKeeps(env, db, app, deployment);
  }

  lemma SuspendKeeps(env: Env, db: Db, deployment: string, on: bool, r: Db)
    requires Inv(env, db) && SetSuspended(env, db, deployment, on) == Success(r)
    ensures Inv(env, r) && r == db.(suspended := r.suspended)
  {
    hide BlobsSound, ArtifactsLinked, DeploymentsLinked, ActiveLinked, SessionsLinked, NamesUnique;
  }

  lemma AccountsKeep(env: Env, db: Db, devices: map<string, Device>, quotas: map<string, Quota>)
    requires Inv(env, db)
    ensures Inv(env, db.(devices := devices, quotas := quotas))
  {
    hide BlobsSound, ArtifactsLinked, DeploymentsLinked, ActiveLinked, SessionsLinked, NamesUnique;
  }

  ghost predicate Inactive(active: map<string, string>, d: string) {
    forall app :: app in active ==> active[app] != d
  }

  /** A new deployment replaces `d` as the active one while nobody runs it. */
  ghost predicate ReplacedIdle(db: Db, step: Step, d: string) {
    && step.Deployed? && TargetApp(db, step.input, step.freshApp).Success?
    && var app := TargetApp(db, step.input, step.freshApp).value;
       app in db.active && db.active[app] == d && !InUse(db.sessions, d)
  }

  /**
   Every committed transaction keeps every link and rewrites no row; it leaves every
   open session it does not end; it deletes a deployment if and only if it replaces
   it as the active one while no open session runs it (so no collection and no end of
   a session ever deletes one); and only an activation makes an old one active.
   */
  lemma StepEffect(env: Env, db: Db, step: Step, r: Db)
    requires Inv(env, db) && Attempt(env, db, step) == Success(r)
    ensures Inv(env, r) && Stable(db, r)
    ensures forall s :: IsOpen(db.sessions, s) && !(step.End? && step.id == s) ==> s in r.sessions && r.sessions[s] == db.sessions[s]
    ensures forall d :: d in db.deployments ==> (d !in r.deployments <==> ReplacedIdle(db, step, d))
    ensures forall d :: d in db.deployments && Inactive(db.active, d) && !(step.Activated? && step.deployment == d) ==> Inactive(r.active, d)
  {
    hide Inv, Deploy, AddArtifact, InsertDeployment, StartSession, EndSession, PutArtifact, PointActive, Collect, TargetApp, InUse;
    match step
    case Put(a, now) => PutKeeps(env, db, a, now, r);
    case Deployed(i, freshApp, deployment, now) => var _ := DeployEffect(env, db, i, freshApp, deployment, now, r);
    case Create(id, row) => CreateKeeps(env, db, id, row, r);
    case Activated(app, deployment) => ActivateKeeps(env, db, app, deployment, r);
    case Suspend(deployment, on) => SuspendKeeps(env, db, deployment, on, r);
    case Start(id, session, identity) => SessionStartKeeps(env, db, id, session, identity, r);
    case End(id, now) => SessionEndKeeps(env, db, id, now, r);
    case Gc(order, cutoff, now) =>
      CollectKeeps(env, db, order, cutoff);
      TombstonesKeep(env, Collect(db, order, cutoff), now);
    case Accounts(devices, quotas) => AccountsKeep(env, db, devices, quotas);
  }

  /** Every deployment that is new after a transaction came from a device of the app's author that was not revoked. */
  lemma NewRowsAuthorized(env: Env, db: Db, step: Step, r: Db, d: string)
    requires Inv(env, db) && Attempt(env, db, step) == Success(r) && d in r.deployments && d !in db.deployments
    ensures var row := r.deployments[d];
      && row.device in db.devices && !db.devices[row.device].revoked
      && row.app in r.apps && db.devices[row.device].author == r.apps[row.app].author
  {
    hide Inv, AddArtifact, StartSession, EndSession, PutArtifact, PointActive, Collect;
    match step
    case Put(a, now) => PutKeeps(env, db, a, now, r);
    case Deployed(i, freshApp, deployment, now) => DeployedByDevice(env, db, i, freshApp, deployment, now, r, d);
    case Create(id, row) => CreateKeeps(env, db, id, row, r);
    case Activated(app, deployment) => ActivateKeeps(env, db, app, deployment, r);
    case Suspend(deployment, on) => SuspendKeeps(env, db, deployment, on, r);
    case Start(id, session, identity) => SessionStartKeeps(env, db, id, session, identity, r);
    case End(id, now) => SessionEndKeeps(env, db, id, now, r);
    case Gc(order, cutoff, now) => CollectKeeps(env, db, order, cutoff);
    case Accounts(devices, quotas) =>
  }

  lemma DeployedByDevice(env: Env, db: Db, i: DeployInput, freshApp: string, deployment: string, now: int, r: Db, d: string)
    requires Inv(env, db) && Deploy(env, db, i, freshApp, deployment, now) == Success(r) && d in r.deployments && d !in db.deployments
    ensures var row := r.deployments[d];
      && row.device in db.devices && !db.devices[row.device].revoked
      && row.app in r.apps && db.devices[row.device].author == r.apps[row.app].author
  {
    DeviceChecked(env, db, i, freshApp, deployment, now);
    NewRow(env, db, i, freshApp, deployment, now, r, d);
    var app := DeployEffect(env, db, i, freshApp, deployment, now, r);
    hide Inv, Deploy, TargetApp, InUse, Stable;
  }

  lemma DeviceChecked(env: Env, db: Db, i: DeployInput, freshApp: string, deployment: string, now: int)
    requires Deploy(env, db, i, freshApp, deployment, now).Success?
    ensures i.device in db.devices && db.devices[i.device].author == i.author && !db.devices[i.device].revoked
  {
    hide Install, TargetApp, ValidDeploy;
  }

  lemma NewRow(env: Env, db: Db, i: DeployInput, freshApp: string, deployment: string, now: int, r: Db, d: string)
    requires Inv(env, db) && Deploy(env, db, i, freshApp, deployment, now) == Success(r) && d in r.deployments && d !in db.deployments
    ensures d == deployment
  {
    hide Inv, Install, TargetApp, InUse, ValidArtifact;
    var app := TargetApp(db, i, freshApp).value;
    TargetIsSafe(env, db, i, freshApp, app);
    var saved := SaveApp(db, app, i);
    assert saved.deployments == db.deployments;
    DeploymentsAfter(env, saved, app, i, deployment, now, r);
  }

  // ----- main results

  const EMPTY: Db := Db(map[], map[], map[], map[], map[], map[], map[], {}, map[], map[], map[])

  /** Every run, with any step rolled back, keeps pointer, deployment, artifact and blob linked. */
  lemma {:induction false} EveryRun(env: Env, db: Db, events: seq<Event>)
    requires Inv(env, db)
    ensures Inv(env, Run(env, db, events))
    decreases |events|
  {
    hide Inv, Attempt;
    if events != [] {
      var body := Attempt(env, db, events[0].step);
      if body.Success? { StepEffect(env, db, events[0].step, body.value); }
      EveryRun(env, Mutate(db, body, events[0].commits), events[1..]);
    }
  }

  /** From an empty database no run reaches tables that are not linked. */
  lemma EveryRunFromEmpty(env: Env, events: seq<Event>)
    ensures Inv(env, Run(env, EMPTY, events))
  {
    hide Run;
    assert Inv(env, EMPTY);
    EveryRun(env, EMPTY, events);
  }

  /**
   On linked tables the resolver never reports an integrity failure, reports a
   missing row only for an app without an active deployment, a suspension only for a
   suspended one, and otherwise returns bytes that hash to the artifact's digest.
   */
  lemma ResolveExact(env: Env, db: Db, author: string, name: string, app: string)
    requires Inv(env, db) && env.validId(author) && Named(db.apps, app, author, name)
    ensures ResolveRunnable(env, db, author, name) == ResolveApp(env, db, app)
    ensures ResolveApp(env, db, app) == Failure(NotFound) <==> app !in db.active
    ensures ResolveApp(env, db, app) == Failure(IsSuspended) <==> app in db.active && (db.apps[app].suspended || db.active[app] in db.suspended)
    ensures ResolveApp(env, db, app).Success? <==> app in db.active && !db.apps[app].suspended && db.active[app] !in db.suspended
    ensures ResolveApp(env, db, app).Success? ==>
      var x := ResolveApp(env, db, app).value; x.deployment == db.active[app] && env.digest(x.wasm) == x.digest
  {
    hide SessionsLinked;
    if app in db.active {
      assert HasBlob(db.artifacts[db.deployments[db.active[app]].artifact], db.blobs);
    }
  }

  /** Deploying and then resolving gives back the uploaded bytes. */
  lemma DeployResolves(env: Env, db: Db, i: DeployInput, freshApp: string, deployment: string, now: int, r: Db)
    requires Inv(env, db) && Deploy(env, db, i, freshApp, deployment, now) == Success(r)
    ensures var app := TargetApp(db, i, freshApp).value;
      ResolveRunnable(env, r, i.author, i.app)
      == if app in db.apps && db.apps[app].suspended then Failure(IsSuspended)
         else Success(Runnable(app, deployment, i.artifact.id, i.artifact.digest, i.artifact.wasm))
  {
    assert env.validId(i.author);
    hide Deploy, TargetApp, InUse, Stable, ValidDeploy;
    var app := DeployEffect(env, db, i, freshApp, deployment, now, r);
    ResolveExact(env, r, i.author, i.app, app);
  }

  ghost predicate NeverEnds(events: seq<Event>, s: string) {
    forall k :: 0 <= k < |events| ==> !(events[k].step.End? && events[k].step.id == s)
  }

  ghost predicate Pinned(db: Db, s: Session, wasm: bytes) {
    Runs(s, db.deployments, db.artifacts) && s.digest in db.blobs && db.blobs[s.digest].wasm == wasm
  }

  /**
   As long as a session is not ended, every later deployment, activation and
   collection leaves its row, its deployment, its artifact and the very same bytes.
   */
  lemma {:induction false} OpenSessionIsPinned(env: Env, db: Db, events: seq<Event>, s: string, wasm: bytes)
    requires Inv(env, db) && IsOpen(db.sessions, s) && NeverEnds(events, s) && Pinned(db, db.sessions[s], wasm)
    ensures var r := Run(env, db, events); s in r.sessions && r.sessions[s] == db.sessions[s] && Pinned(r, db.sessions[s], wasm)
    decreases |events|
  {
    hide Inv, Attempt;
    if events != [] {
      var body := Attempt(env, db, events[0].step);
      var next := Mutate(db, body, events[0].commits);
      if body.Success? {
        assert !(events[0].step.End? && events[0].step.id == s);
        StepEffect(env, db, events[0].step, body.value);
        StaysPinned(env, db, body.value, s, wasm);
      }
      assert forall k :: 0 <= k < |events| - 1 ==> events[1..][k] == events[k + 1];
      OpenSessionIsPinned(env, next, events[1..], s, wasm);
    }
  }

  lemma StaysPinned(env: Env, db: Db, r: Db, s: string, wasm: bytes)
    requires Inv(env, r) && Stable(db, r) && IsOpen(db.sessions, s) && Pinned(db, db.sessions[s], wasm)
    requires s in r.sessions && r.sessions[s] == db.sessions[s]
    ensures Pinned(r, db.sessions[s], wasm)
  {
    hide BlobsSound, DeploymentsLinked, ActiveLinked, NamesUnique;
    assert IsOpen(r.sessions, s);
    var row := r.sessions[s];
    assert HasBlob(r.artifacts[r.deployments[row.deployment].artifact], r.blobs);
  }

  /** An open session of a linked database is pinned to some bytes to begin with. */
  lemma OpenSessionHasBytes(env: Env, db: Db, s: string)
    requires Inv(env, db) && IsOpen(db.sessions, s)
    ensures db.sessions[s].digest in db.blobs && env.digest(db.blobs[db.sessions[s].digest].wasm) == db.sessions[s].digest
    ensures Pinned(db, db.sessions[s], db.blobs[db.sessions[s].digest].wasm)
  {
    hide ActiveLinked, NamesUnique, DeploymentsLinked;
    var row := db.sessions[s];
    assert HasBlob(db.artifacts[db.deployments[row.deployment].artifact], db.blobs);
  }

  ghost predicate NeverActivated(events: seq<Event>, d: string) {
    forall k :: 0 <= k < |events| ==> !(events[k].step.Activated? && events[k].step.deployment == d)
  }

  /**
   A replaced deployment that survived its replacement is never collected: whatever
   runs later, sessions ending and collections included, its row stays unless it is
   activated again.
   */
  lemma {:induction false} SurvivorIsNeverCollected(env: Env, db: Db, events: seq<Event>, d: string)
    requires Inv(env, db) && d in db.deployments && Inactive(db.active, d) && NeverActivated(events, d)
    ensures d in Run(env, db, events).deployments
    decreases |events|
  {
    hide Inv, Attempt;
    if events != [] {
      var body := Attempt(env, db, events[0].step);
      if body.Success? {
        assert !(events[0].step.Activated? && events[0].step.deployment == d);
        StepEffect(env, db, events[0].step, body.value);
      }
      assert forall k :: 0 <= k < |events| - 1 ==> events[1..][k] == events[k + 1];
      SurvivorIsNeverCollected(env, Mutate(db, body, events[0].commits), events[1..], d);
    }
  }

  /** So a deployment replaced while a session ran it outlives that session for good. */
  lemma ReplacedWhileOpenStays(env: Env, db: Db, i: DeployInput, freshApp: string, deployment: string, now: int, r: Db, d: string, events: seq<Event>)
    requires Inv(env, db) && Deploy(env, db, i, freshApp, deployment, now) == Success(r)
    requires var app := TargetApp(db, i, freshApp).value; app in db.active && db.active[app] == d
    requires InUse(db.sessions, d) && NeverActivated(events, d)
    ensures d in Run(env, r, events).deployments
  {
    hide Deploy, TargetApp, InUse, Stable, NeverActivated, Run;
    var app := DeployEffect(env, db, i, freshApp, deployment, now, r);
    assert d in db.deployments && db.deployments[d].app == app;
    forall other | other in r.active ensures r.active[other] != d {
      if other != app {
        assert db.deployments[db.active[other]].app == other;
      }
    }
    SurvivorIsNeverCollected(env, r, events, d);
  }

  /**
   A session is admitted if and only if the resolver would serve that app with that
   deployment and digest, given a fresh identifier and room under the limit.
   */
  lemma StartMatchesResolve(env: Env, db: Db, id: string, s: Session, identity: string)
    requires Inv(env, db) && env.validId(id) && env.validId(s.app) && env.validId(s.deployment) && env.validId(s.digest)
    requires |identity| <= 2048 && id !in db.sessions && !AtSessionLimit(db, s.app)
    ensures StartSession(env, db, id, s, identity).Success? <==>
      var x := ResolveApp(env, db, s.app); x.Success? && x.value.deployment == s.deployment && x.value.digest == s.digest
  {
    hide SessionsLinked, NamesUnique, AtSessionLimit;
    if s.app in db.active {
      assert HasBlob(db.artifacts[db.deployments[db.active[s.app]].artifact], db.blobs);
    }
  }

  /** No committed transaction takes an app's open sessions past its limit. */
  lemma SessionsWithinLimit(env: Env, db: Db, step: Step, r: Db, app: string)
    requires Inv(env, db) && Attempt(env, db, step) == Success(r)
    ensures |OpenOf(r.sessions, app)| <= |OpenOf(db.sessions, app)|
            || (SessionLimit(db, app) > 0 ==> |OpenOf(r.sessions, app)| <= SessionLimit(db, app))
  {
    hide Inv, Deploy, AddArtifact, InsertDeployment, PutArtifact, PointActive, Collect, TargetApp, InUse, SessionLimit, OpenOf, StartSession, EndSession;
    match step
    case Put(a, now) => PutKeeps(env, db, a, now, r);
    case Deployed(i, freshApp, deployment, now) => var _ := DeployEffect(env, db, i, freshApp, deployment, now, r);
    case Create(id, row) => CreateKeeps(env, db, id, row, r);
    case Activated(a, deployment) => ActivateKeeps(env, db, a, deployment, r);
    case Suspend(deployment, on) => SuspendKeeps(env, db, deployment, on, r);
    case Start(id, session, identity) => StartWithinLimit(env, db, id, session, identity, r, app);
    case End(id, now) => EndOpensNone(env, db, id, now, r, app);
    case Gc(order, cutoff, now) =>
      CollectKeeps(env, db, order, cutoff);
      SubmapOpensNone(db.sessions, r.sessions, app);
    case Accounts(devices, quotas) =>
  }

  lemma StartWithinLimit(env: Env, db: Db, id: string, s: Session, identity: string, r: Db, app: string)
    requires StartSession(env, db, id, s, identity) == Success(r)
    ensures |OpenOf(r.sessions, app)| <= |OpenOf(db.sessions, app)|
            || (SessionLimit(db, app) > 0 ==> |OpenOf(r.sessions, app)| <= SessionLimit(db, app))
  {
    hide SessionLimit;
    if s.app == app {
      assert OpenOf(r.sessions, app) == OpenOf(db.sessions, app) + {id};
    } else {
      assert OpenOf(r.sessions, app) == OpenOf(db.sessions, app);
    }
  }

  lemma EndOpensNone(env: Env, db: Db, id: string, now: int, r: Db, app: string)
    requires EndSession(env, db, id, now) == Success(r)
    ensures |OpenOf(r.sessions, app)| <= |OpenOf(db.sessions, app)|
  {
    Fewer(OpenOf(r.sessions, app), OpenOf(db.sessions, app));
  }

  lemma SubmapOpensNone(was: map<string, Session>, now: map<string, Session>, app: string)
    requires Submap(now, was)
    ensures |OpenOf(now, app)| <= |OpenOf(was, app)|
  {
    Fewer(OpenOf(now, app), OpenOf(was, app));
  }

  /** The open sessions of all of an author's apps. */
  function AuthorOpen(sessions: map<string, Session>, apps: map<string, App>, author: string): (r: set<string>) {
    set x | x in sessions && IsOpen(sessions, x) && sessions[x].app in apps && apps[sessions[x].app].author == author
  }

  /**
   The limit is the author's, but admission counts one app. A committed start keeps the
   author's sessions within it if and only if they were below it before, which the check
   guarantees only when all of them run that app.
   */
  lemma AuthorLimitIff(env: Env, db: Db, id: string, s: Session, identity: string, r: Db)
    requires StartSession(env, db, id, s, identity) == Success(r) && SessionLimit(db, s.app) > 0
    ensures var author := db.apps[s.app].author; var limit := SessionLimit(db, s.app);
      && (|AuthorOpen(r.sessions, r.apps, author)| <= limit <==> |AuthorOpen(db.sessions, db.apps, author)| < limit)
      && (AuthorOpen(db.sessions, db.apps, author) == OpenOf(db.sessions, s.app) ==> |AuthorOpen(r.sessions, r.apps, author)| <= limit)
  {
    StartAdds(env, db, id, s, identity, r);
    hide StartSession, SessionLimit, AtSessionLimit;
    var author := db.apps[s.app].author;
    OneMoreOpen(db.sessions, db.apps, id, s, author);
    hide AuthorOpen, OpenOf;
  }

  lemma OneMoreOpen(sessions: map<string, Session>, apps: map<string, App>, id: string, s: Session, author: string)
    requires id !in sessions && s.app in apps && apps[s.app].author == author
    ensures |AuthorOpen(sessions[id := s.(ended := None)], apps, author)| == |AuthorOpen(sessions, apps, author)| + 1
  {
    assert AuthorOpen(sessions[id := s.(ended := None)], apps, author) == AuthorOpen(sessions, apps, author) + {id};
  }

  lemma StartAdds(env: Env, db: Db, id: string, s: Session, identity: string, r: Db)
    requires StartSession(env, db, id, s, identity) == Success(r)
    ensures s.app in db.apps && r.apps == db.apps && r.sessions == db.sessions[id := s.(ended := None)] && id !in db.sessions
    ensures SessionLimit(db, s.app) > 0 ==> |OpenOf(db.sessions, s.app)| < SessionLimit(db, s.app)
  {
    hide SessionLimit, OpenOf;
  }

  function AnyEnv(): (env: Env) {
    Env((wasm: bytes) => "d", (id: string) => true)
  }

  /** Two apps of one author under a limit of one, the first with a session open. */
  const TWO_APPS: Db := EMPTY.(
    devices := map["v" := Device("u", false)],
    apps := map["a" := App("u", "a", "tui", "public", false), "b" := App("u", "b", "tui", "public", false)],
    quotas := map["u" := Quota(0, 1)],
    blobs := map["d" := Blob(0, [])],
    artifacts := map["x" := Artifact("d", 0, 1, 0)],
    deployments := map["p" := Deployment("a", "x", "v"), "q" := Deployment("b", "x", "v")],
    active := map["a" := "p", "b" := "q"],
    sessions := map["s" := Session("a", "p", "d", None)])

  lemma TwoAppsNamed()
    ensures NamesUnique(TWO_APPS.apps)
  {
    assert "a"[0] == 'a' && "b"[0] == 'b';
  }

  lemma TwoAppsRows()
    ensures BlobsSound(AnyEnv(), TWO_APPS.blobs) && ArtifactsLinked(TWO_APPS.artifacts, TWO_APPS.blobs)
    ensures DeploymentsLinked(TWO_APPS.deployments, TWO_APPS.artifacts, TWO_APPS.apps)
  {}

  lemma TwoAppsLinked()
    ensures Inv(AnyEnv(), TWO_APPS)
  {
    TwoAppsNamed();
    TwoAppsRows();
    hide BlobsSound, ArtifactsLinked, DeploymentsLinked, NamesUnique;
    assert "p"[0] == 'p' && "q"[0] == 'q';
  }

  lemma StartsOnOther()
    ensures StartSession(AnyEnv(), TWO_APPS, "t", Session("b", "q", "d", None), "")
         == Success(TWO_APPS.(sessions := TWO_APPS.sessions["t" := Session("b", "q", "d", None)]))
  {
    assert "a"[0] == 'a' && "b"[0] == 'b' && "s"[0] == 's' && "t"[0] == 't' && "p"[0] == 'p' && "q"[0] == 'q';
    assert OpenOf(TWO_APPS.sessions, "b") == {};
  }

  lemma BothOpen()
    ensures {"s", "t"} <= AuthorOpen(TWO_APPS.sessions["t" := Session("b", "q", "d", None)], TWO_APPS.apps, "u")
  {
    assert "s"[0] == 's' && "t"[0] == 't' && "a"[0] == 'a' && "b"[0] == 'b';
  }

  /** A second session is admitted on the other app, and the author has two under a limit of one. */
  lemma LimitIsPerApp()
    ensures Inv(AnyEnv(), TWO_APPS) && SessionLimit(TWO_APPS, "b") == 1
    ensures var r := StartSession(AnyEnv(), TWO_APPS, "t", Session("b", "q", "d", None), "");
      r.Success? && |AuthorOpen(r.value.sessions, r.value.apps, "u")| >= 2
  {
    TwoAppsLinked();
    hide Inv;
    assert "a"[0] == 'a' && "b"[0] == 'b' && "s"[0] == 's' && "t"[0] == 't';
    StartsOnOther();
    hide StartSession, AuthorOpen;
    BothOpen();
    Fewer({"s", "t"}, AuthorOpen(TWO_APPS.sessions["t" := Session("b", "q", "d", None)], TWO_APPS.apps, "u"));
  }

  const REDEPLOY: DeployInput :=
    DeployInput("u", "v", "a", "tui", "public", "src", ArtifactInput("y", "d", [], 1, 0, map[]), "")

  lemma RedeployTarget(freshApp: string)
    ensures TargetApp(TWO_APPS, REDEPLOY, freshApp) == Success("a") && SaveApp(TWO_APPS, "a", REDEPLOY) == TWO_APPS
  {
    assert "a"[0] == 'a' && "b"[0] == 'b';
    assert Named(TWO_APPS.apps, "a", "u", "a");
    assert forall id :: Named(TWO_APPS.apps, id, "u", "a") ==> id == "a";
  }

  lemma RedeployAdds()
    ensures AddArtifact(AnyEnv(), TWO_APPS, REDEPLOY.artifact)
         == Success(TWO_APPS.(artifacts := TWO_APPS.artifacts["y" := Artifact("d", 0, 1, 0)]))
  {
    assert "x"[0] == 'x' && "y"[0] == 'y';
    hide SizeClash;
  }

  lemma PointsToNew(db: Db, app: string, id: string, d: Deployment)
    requires InsertDeployment(db, id, d).Success? && d.app == app && forall other :: other in db.active ==> db.active[other] != id
    ensures PointActive(InsertDeployment(db, id, d).value, app, id)
         == Success(db.(deployments := db.deployments[id := d], active := db.active[app := id]))
  {}

  lemma RedeployPlaces()
    ensures var r := Place(AnyEnv(), TWO_APPS, "a", REDEPLOY, "n");
      && r.Success? && r.value.sessions == TWO_APPS.sessions && r.value.audit == map[]
      && r.value.active == TWO_APPS.active["a" := "n"]
  {
    RedeployAdds();
    hide AddArtifact;
    assert "n"[0] == 'n' && "p"[0] == 'p' && "q"[0] == 'q' && "a"[0] == 'a';
    var added := AddArtifact(AnyEnv(), TWO_APPS, REDEPLOY.artifact).value;
    assert InsertDeployment(added, "n", Deployment("a", "y", "v")).Success?;
    PointsToNew(added, "a", "n", Deployment("a", "y", "v"));
    hide InsertDeployment, PointActive;
  }

  lemma RedeploySucceeds()
    ensures var r := Deploy(AnyEnv(), TWO_APPS, REDEPLOY, "z", "n", 0);
      && r.Success? && r.value.sessions == TWO_APPS.sessions && r.value.active == TWO_APPS.active["a" := "n"]
  {
    RedeployTarget("z");
    RedeployPlaces();
    hide Place, TargetApp, SaveApp;
    assert "n"[0] == 'n' && "p"[0] == 'p';
    var placed := Place(AnyEnv(), TWO_APPS, "a", REDEPLOY, "n").value;
    assert InUse(placed.sessions, "p") by {
      assert IsOpen(placed.sessions, "s");
    }
    assert Retire(placed, "p") == Success(placed);
  }

  const ENDED: Event := Event(End("s", 1), true)
  const COLLECTED: Event := Event(Gc(BLOBS_FIRST, 100, 100), true)

  lemma SessionOpen()
    ensures InUse(TWO_APPS.sessions, "p") && NeverActivated([ENDED, COLLECTED], "p")
  {
    assert IsOpen(TWO_APPS.sessions, "s");
  }

  /** The input behind `ReplacedWhileOpenStays`: the session ends, a collection runs, nobody uses the replaced row and it is still there. */
  lemma ReplacedRowLeftOver()
    ensures Inv(AnyEnv(), TWO_APPS) && "a" in TWO_APPS.active && TWO_APPS.active["a"] == "p"
    ensures var r := Deploy(AnyEnv(), TWO_APPS, REDEPLOY, "z", "n", 0);
      && r.Success? && "a" in r.value.active && r.value.active["a"] == "n"
      && var z := Run(AnyEnv(), r.value, [ENDED, COLLECTED]);
         "p" in z.deployments && !InUse(z.sessions, "p")
  {
    TwoAppsLinked();
    RedeploySucceeds();
    RedeployTarget("z");
    SessionOpen();
    hide Deploy, TargetApp, Inv, Run, InUse, NeverActivated, SaveApp;
    assert "a"[0] == 'a' && "b"[0] == 'b';
    var r := Deploy(AnyEnv(), TWO_APPS, REDEPLOY, "z", "n", 0).value;
    ReplacedWhileOpenStays(AnyEnv(), TWO_APPS, REDEPLOY, "z", "n", 0, r, "p", [ENDED, COLLECTED]);
    SessionGone(r);
  }

  lemma RunTwo(env: Env, db: Db, a: Event, b: Event)
    ensures var next := Mutate(db, Attempt(env, db, a.step), a.commits);
      Run(env, db, [a, b]) == Mutate(next, Attempt(env, next, b.step), b.commits)
  {
    hide Mutate, Attempt;
    assert [a, b][1..] == [b] && [b][1..] == [];
    var next := Mutate(db, Attempt(env, db, a.step), a.commits);
    assert Run(env, db, [a, b]) == Run(env, next, [b]);
    assert Run(env, next, [b]) == Run(env, Mutate(next, Attempt(env, next, b.step), b.commits), []);
  }

  lemma SessionGone(db: Db)
    requires db.sessions == TWO_APPS.sessions
    ensures !InUse(Run(AnyEnv(), db, [ENDED, COLLECTED]).sessions, "p")
  {
    RunTwo(AnyEnv(), db, ENDED, COLLECTED);
    hide Run, Collect;
    var ended := EndSession(AnyEnv(), db, "s", 1).value;
    assert forall s :: !IsOpen(ended.sessions, s);
    CollectOpensNothing(ended, BLOBS_FIRST, 100);
  }

  lemma {:induction false} CollectOpensNothing(db: Db, order: seq<Sweep>, cutoff: int)
    requires forall s :: !IsOpen(db.sessions, s)
    ensures forall s :: !IsOpen(Collect(db, order, cutoff).sessions, s)
    decreases |order|
  {
    if order != [] {
      SweepOpensNothing(db, order[0], cutoff);
      hide SweepOnce;
      CollectOpensNothing(SweepOnce(db, order[0], cutoff), order[1..], cutoff);
    }
  }

  lemma SweepOpensNothing(db: Db, q: Sweep, cutoff: int)
    requires forall s :: !IsOpen(db.sessions, s)
    ensures forall s :: !IsOpen(SweepOnce(db, q, cutoff).sessions, s)
  {
    hide Wanted, UsedBlobs, Expired;
    forall s ensures !IsOpen(SweepOnce(db, q, cutoff).sessions, s) {
      assert !IsOpen(db.sessions, s);
    }
  }

  lemma Fewer(a: set<string>, b: set<string>)
    requires a <= b
    ensures |a| <= |b|
  {
    assert b == a + (b - a);
  }

  /** Ending a session again changes nothing: its first end time stands. */
  lemma EndingTwice(env: Env, db: Db, id: string, first: int, second: int)
    requires EndSession(env, db, id, first).Success?
    ensures EndSession(env, EndSession(env, db, id, first).value, id, second) == EndSession(env, db, id, first)
  {}

  // ----- collection leaves nothing behind, in any order

  lemma SweepArtifacts(db: Db, q: Sweep, cutoff: int)
    ensures SweepOnce(db, q, cutoff).deployments == db.deployments
    ensures SweepOnce(db, q, cutoff).artifacts == if q == OldArtifacts then Wanted(db.artifacts, db.deployments, cutoff) else db.artifacts
  {
    hide ArtifactUsed, DigestUsed;
  }

  lemma {:induction false} CollectArtifacts(db: Db, order: seq<Sweep>, cutoff: int)
    ensures Collect(db, order, cutoff).deployments == db.deployments
    ensures Collect(db, order, cutoff).artifacts == if OldArtifacts in order then Wanted(db.artifacts, db.deployments, cutoff) else db.artifacts
    decreases |order|
  {
    hide ArtifactUsed, SweepOnce;
    if order != [] {
      SweepArtifacts(db, order[0], cutoff);
      CollectArtifacts(SweepOnce(db, order[0], cutoff), order[1..], cutoff);
      WantedTwice(db.artifacts, db.deployments, cutoff);
    }
  }

  lemma WantedTwice(artifacts: Artifacts, deployments: Deployments, cutoff: int)
    ensures Wanted(Wanted(artifacts, deployments, cutoff), deployments, cutoff) == Wanted(artifacts, deployments, cutoff)
  {
    hide ArtifactUsed;
  }

  /** Once no unwanted artifact is left, any order of deletes clears every loose blob. */
  lemma {:induction false} CollectSettled(db: Db, order: seq<Sweep>, cutoff: int)
    requires Wanted(db.artifacts, db.deployments, cutoff) == db.artifacts && (LooseBlobs in order || Tidy(db))
    ensures Collect(db, order, cutoff).artifacts == db.artifacts && Tidy(Collect(db, order, cutoff))
    decreases |order|
  {
    hide SweepOnce, Wanted, Tidy;
    if order != [] {
      SweepArtifacts(db, order[0], cutoff);
      SweepTidy(db, order[0], cutoff);
      CollectSettled(SweepOnce(db, order[0], cutoff), order[1..], cutoff);
    }
  }

  lemma SweepTidy(db: Db, q: Sweep, cutoff: int)
    requires Wanted(db.artifacts, db.deployments, cutoff) == db.artifacts
    ensures q == LooseBlobs || Tidy(db) ==> Tidy(SweepOnce(db, q, cutoff))
  {
    SweepArtifacts(db, q, cutoff);
    hide ArtifactUsed, Wanted, DigestUsed;
  }

  /**
   The order of the deletes can leave a blob whose artifact goes in the same pass; a
   second pass, in any order again, leaves exactly the wanted artifacts and no loose blob.
   */
  lemma CollectTwice(db: Db, first: seq<Sweep>, second: seq<Sweep>, cutoff: int)
    requires OldArtifacts in first && LooseBlobs in second
    ensures var r := Collect(Collect(db, first, cutoff), second, cutoff); r.artifacts == Wanted(db.artifacts, db.deployments, cutoff) && Tidy(r)
  {
    hide Collect, Wanted, Tidy;
    CollectArtifacts(db, first, cutoff);
    WantedTwice(db.artifacts, db.deployments, cutoff);
    CollectSettled(Collect(db, first, cutoff), second, cutoff);
  }

  /** An artifact survives if and only if it is no older than the cutoff or some deployment uses it. */
  lemma WantedIs(artifacts: Artifacts, deployments: Deployments, cutoff: int)
    ensures forall id :: id in Wanted(artifacts, deployments, cutoff) <==>
      id in artifacts && (artifacts[id].created >= cutoff || exists d :: d in deployments && deployments[d].artifact == id)
  {}

  /**
   What a collection deletes besides, in any order of its deletes: exactly the audit rows
   and the ended sessions from before the cutoff, and exactly the old artifacts that no
   deployment uses.
   */
  lemma CollectExact(db: Db, order: seq<Sweep>, cutoff: int)
    requires multiset(order) == FOUR_DELETES
    ensures var r := Collect(db, order, cutoff);
      && (forall id :: id in r.audit <==> id in db.audit && db.audit[id] >= cutoff)
      && (forall id :: id in r.sessions <==> id in db.sessions && (db.sessions[id].ended.None? || db.sessions[id].ended.value >= cutoff))
      && (forall id :: id in r.artifacts <==>
            id in db.artifacts && (db.artifacts[id].created >= cutoff || exists d :: d in db.deployments && db.deployments[d].artifact == id))
  {
    assert OldArtifacts in multiset(order) && AuditRows in multiset(order) && EndedSessions in multiset(order);
    CollectArtifacts(db, order, cutoff);
    WantedIs(db.artifacts, db.deployments, cutoff);
    CollectRows(db, order, cutoff);
    hide Collect, Wanted;
  }

  lemma {:induction false} CollectRows(db: Db, order: seq<Sweep>, cutoff: int)
    ensures var r := Collect(db, order, cutoff);
      && (forall id :: id in r.audit <==> id in db.audit && (AuditRows in order ==> db.audit[id] >= cutoff))
      && (forall id :: id in r.sessions <==>
            id in db.sessions && (EndedSessions in order ==> db.sessions[id].ended.None? || db.sessions[id].ended.value >= cutoff))
    decreases |order|
  {
    if order != [] {
      SweepRows(db, order[0], cutoff);
      hide SweepOnce;
      CollectRows(SweepOnce(db, order[0], cutoff), order[1..], cutoff);
    }
  }

  lemma SweepRows(db: Db, q: Sweep, cutoff: int)
    ensures var r := SweepOnce(db, q, cutoff);
      && (forall id :: id in r.audit <==> id in db.audit && (q == AuditRows ==> db.audit[id] >= cutoff))
      && (forall id :: id in r.audit ==> r.audit[id] == db.audit[id])
      && (forall id :: id in r.sessions <==>
            id in db.sessions && (q == EndedSessions ==> db.sessions[id].ended.None? || db.sessions[id].ended.value >= cutoff))
      && (forall id :: id in r.sessions ==> r.sessions[id] == db.sessions[id])
  {
    hide Wanted, UsedBlobs;
  }

  const FOUR_DELETES: multiset<Sweep> := multiset{AuditRows, EndedSessions, OldArtifacts, LooseBlobs}

  /** Every stored blob that some artifact uses is used by an artifact this collection would keep. */
  ghost predicate NothingGoesLoose(db: Db, cutoff: int) {
    forall b :: b in db.blobs && DigestUsed(db.artifacts, b) ==> DigestUsed(Wanted(db.artifacts, db.deployments, cutoff), b)
  }

  lemma UsedInBigger(small: Artifacts, big: Artifacts, digest: string)
    requires Submap(small, big) && DigestUsed(small, digest)
    ensures DigestUsed(big, digest)
  {
    var id :| id in small && small[id].digest == digest;
    assert id in big && big[id].digest == digest;
  }

  /** What a sweep may leave of the blobs and artifacts. */
  lemma SweepShrinks(db: Db, q: Sweep, cutoff: int)
    ensures Submap(SweepOnce(db, q, cutoff).artifacts, db.artifacts) && Submap(SweepOnce(db, q, cutoff).blobs, db.blobs)
    ensures q == LooseBlobs ==> forall b :: b in SweepOnce(db, q, cutoff).blobs ==> DigestUsed(db.artifacts, b)
  {
    hide ArtifactUsed, DigestUsed;
  }

  /** After a sweep of the blobs, every blob left was used when the collection began. */
  lemma {:induction false} CollectBlobs(db: Db, order: seq<Sweep>, cutoff: int, b: string)
    requires b in Collect(db, order, cutoff).blobs
    ensures b in db.blobs && (LooseBlobs in order ==> DigestUsed(db.artifacts, b))
    decreases |order|
  {
    hide SweepOnce, DigestUsed;
    if order != [] {
      var next := SweepOnce(db, order[0], cutoff);
      SweepShrinks(db, order[0], cutoff);
      CollectBlobs(next, order[1..], cutoff, b);
      if LooseBlobs in order && order[0] != LooseBlobs {
        UsedInBigger(next.artifacts, db.artifacts, b);
      }
    }
  }

  /**
   One collection leaves no loose blob, whatever order its deletes take, if and only if
   no blob in use loses its last artifact to it.
   */
  lemma OneCollectionTidyIff(db: Db, cutoff: int)
    ensures (forall order: seq<Sweep> :: multiset(order) == FOUR_DELETES ==> Tidy(Collect(db, order, cutoff))) <==> NothingGoesLoose(db, cutoff)
  {
    hide Collect, Wanted, DigestUsed;
    if NothingGoesLoose(db, cutoff) {
      forall order: seq<Sweep> | multiset(order) == FOUR_DELETES ensures Tidy(Collect(db, order, cutoff)) {
        assert OldArtifacts in multiset(order) && LooseBlobs in multiset(order);
        CollectArtifacts(db, order, cutoff);
        var r := Collect(db, order, cutoff);
        forall b | b in r.blobs ensures DigestUsed(r.artifacts, b) {
          CollectBlobs(db, order, cutoff, b);
        }
      }
    } else {
      var b :| b in db.blobs && DigestUsed(db.artifacts, b) && !DigestUsed(Wanted(db.artifacts, db.deployments, cutoff), b);
      BlobsFirstLeaves(db, cutoff, b);
    }
  }

  const BLOBS_FIRST: seq<Sweep> := [LooseBlobs, OldArtifacts, EndedSessions, AuditRows]

  /** Sweeping the blobs first leaves the blob of an artifact that goes right after. */
  lemma BlobsFirstLeaves(db: Db, cutoff: int, b: string)
    requires b in db.blobs && DigestUsed(db.artifacts, b) && !DigestUsed(Wanted(db.artifacts, db.deployments, cutoff), b)
    ensures multiset(BLOBS_FIRST) == FOUR_DELETES && !Tidy(Collect(db, BLOBS_FIRST, cutoff))
  {
    FourInOrder();
    KeptWhenUsed(db, cutoff, b);
    hide SweepOnce, DigestUsed, Wanted, Collect;
    var rest: seq<Sweep> := [OldArtifacts, EndedSessions, AuditRows];
    assert BLOBS_FIRST == [LooseBlobs] + rest;
    CollectCons(db, LooseBlobs, rest, cutoff);
    KeepsBlobs(SweepOnce(db, LooseBlobs, cutoff), rest, cutoff);
    CollectArtifacts(db, BLOBS_FIRST, cutoff);
    assert OldArtifacts in BLOBS_FIRST;
  }

  lemma FourInOrder()
    ensures multiset(BLOBS_FIRST) == FOUR_DELETES
  {}

  lemma CollectCons(db: Db, q: Sweep, rest: seq<Sweep>, cutoff: int)
    ensures Collect(db, [q] + rest, cutoff) == Collect(SweepOnce(db, q, cutoff), rest, cutoff)
  {
    hide SweepOnce;
    assert ([q] + rest)[1..] == rest;
  }

  lemma KeptWhenUsed(db: Db, cutoff: int, b: string)
    requires b in db.blobs && DigestUsed(db.artifacts, b)
    ensures b in SweepOnce(db, LooseBlobs, cutoff).blobs
  {
    hide DigestUsed;
  }

  lemma {:induction false} KeepsBlobs(db: Db, order: seq<Sweep>, cutoff: int)
    requires LooseBlobs !in order
    ensures Collect(db, order, cutoff).blobs == db.blobs
    decreases |order|
  {
    hide SweepOnce;
    if order != [] {
      SweepKeepsBlobs(db, order[0], cutoff);
      KeepsBlobs(SweepOnce(db, order[0], cutoff), order[1..], cutoff);
    }
  }

  lemma SweepKeepsBlobs(db: Db, q: Sweep, cutoff: int)
    requires q != LooseBlobs
    ensures SweepOnce(db, q, cutoff).blobs == db.blobs
  {
    hide ArtifactUsed, DigestUsed, Expired;
  }

  /** A database on which it matters: the one artifact is old and unused, so its blob stays or goes with the order. */
  lemma OneSweepMayLeaveBlob()
    ensures var db := EMPTY.(blobs := map["d" := Blob(0, [])], artifacts := map["a" := Artifact("d", 0, 1, 5)]);
      && !NothingGoesLoose(db, 9) && !Tidy(Collect(db, BLOBS_FIRST, 9))
      && Tidy(Collect(Collect(db, BLOBS_FIRST, 9), BLOBS_FIRST, 9))
  {
    var db := EMPTY.(blobs := map["d" := Blob(0, [])], artifacts := map["a" := Artifact("d", 0, 1, 5)]);
    assert "a" in db.artifacts && DigestUsed(db.artifacts, "d");
    assert !ArtifactUsed(db.deployments, "a");
    assert Wanted(db.artifacts, db.deployments, 9) == map[];
    assert !DigestUsed(map[], "d");
    BlobsFirstLeaves(db, 9, "d");
    CollectTwice(db, BLOBS_FIRST, BLOBS_FIRST, 9);
  }

  // ----- the repository object: statements change the tables in place, an error undoes them

  function Reported(body: Outcome, commits: bool): (e: Option<Error>) {
    if body.Failure? then Some(body.error) else if commits then None else Some(Storage)
  }

  class Repo {
    const env: Env
    var db: Db

    constructor (env: Env)
      ensures this.env == env && db == EMPTY && Inv(env, db)
    {
      this.env, db := env, EMPTY;
    }

    /** One statement of a transaction. */
    method Exec(statement: Outcome) returns (error: Option<Error>)
      modifies this
      ensures statement.Success? ==> error == None && db == statement.value
      ensures statement.Failure? ==> error == Some(statement.error) && db == old(db)
    {
      if statement.Failure? {
        return Some(statement.error);
      }
      db := statement.value;
      error := None;
    }

    /** Commit, or roll back to the tables the transaction began with. */
    method Finish(before: Db, error: Option<Error>, commits: bool) returns (e: Option<Error>)
      modifies this
      ensures db == if error.None? && commits then old(db) else before
      ensures e == if error.None? && !commits then Some(Storage) else error
    {
      e := if error.None? && !commits then Some(Storage) else error;
      if e.Some? {
        db := before;
      }
    }

    /** Blob, artifact row and metadata; the caller rolls back on an error. */
    method ExecArtifact(a: ArtifactInput) returns (error: Option<Error>)
      modifies this
      ensures var body := AddArtifact(env, old(db), a);
        if body.Success? then error == None && db == body.value else error == Some(body.error)
    {
      hide ValidMetadata;
      error := Exec(StoreBlob(db, a.digest, a.wasm));
      if error.None? {
        error := Exec(InsertArtifact(db, a.id, Artifact(a.digest, |a.wasm|, a.abi, a.created)));
      }
      if error.None? && !ValidMetadata(env, a.metadata) {
        error := Some(Invalid);
      }
    }

    method PutArtifact(a: ArtifactInput, now: int, commits: bool) returns (error: Option<Error>)
      requires Inv(env, db)
      modifies this
      ensures var body := Attempt(env, old(db), Put(a, now)); db == Mutate(old(db), body, commits) && error == Reported(body, commits)
      ensures Inv(env, db)
    {
      ghost var body := Attempt(env, db, Put(a, now));
      if body.Success? { StepEffect(env, db, Put(a, now), body.value); }
      hide Inv, ValidArtifact, AddArtifact, InsertAudit;
      if !ValidArtifact(env, a) {
        return Some(Invalid);
      }
      var before := db;
      error := ExecArtifact(a);
      if error.None? {
        error := Exec(InsertAudit(db, "audit_" + a.id, now));
      }
      error := Finish(before, error, commits);
    }

    /** The row of an app by author and name. */
    method Lookup(author: string, name: string) returns (r: Option<string>)
      requires NamesUnique(db.apps)
      ensures r == FindApp(db.apps, author, name)
    {
      if id :| id in db.apps && Named(db.apps, id, author, name) {
        r := Some(id);
      } else {
        r := None;
      }
    }

    method Target(i: DeployInput, freshApp: string) returns (app: Result<string, Error>)
      requires NamesUnique(db.apps)
      ensures app == TargetApp(db, i, freshApp)
    {
      if i.previous != "" {
        if i.previous !in db.deployments || !Named(db.apps, db.deployments[i.previous].app, i.author, i.app) {
          return Failure(NotFound);
        }
        return Success(db.deployments[i.previous].app);
      }
      var found := Lookup(i.author, i.app);
      if found.Some? {
        return Success(found.value);
      }
      app := if freshApp in db.apps then Failure(Conflict) else Success(freshApp);
    }

    /** Inserts, repoints, retires and audits, stopping at the first error. */
    method ExecInstall(app: string, i: DeployInput, deployment: string, now: int) returns (error: Option<Error>)
      modifies this
      ensures var body := Install(env, old(db), app, i, deployment, now);
        if body.Success? then error == None && db == body.value else error == Some(body.error)
    {
      hide AddArtifact, InsertDeployment, PointActive, Retire, InsertAudit;
      var replaced := if app in db.active then Some(db.active[app]) else None;
      error := ExecArtifact(i.artifact);
      if error.None? {
        error := Exec(InsertDeployment(db, deployment, Deployment(app, i.artifact.id, i.device)));
      }
      if error.None? {
        error := Exec(PointActive(db, app, deployment));
      }
      if error.None? && replaced.Some? && replaced.value != deployment {
        error := Exec(Retire(db, replaced.value));
      }
      if error.None? {
        error := Exec(InsertAudit(db, "audit_" + deployment, now));
      }
    }

    method DeployApplication(i: DeployInput, freshApp: string, deployment: string, now: int, commits: bool) returns (error: Option<Error>)
      requires Inv(env, db)
      modifies this
      ensures var body := Attempt(env, old(db), Deployed(i, freshApp, deployment, now));
        db == Mutate(old(db), body, commits) && error == Reported(body, commits)
      ensures Inv(env, db)
    {
      ghost var body := Attempt(env, db, Deployed(i, freshApp, deployment, now));
      if body.Success? { StepEffect(env, db, Deployed(i, freshApp, deployment, now), body.value); }
      hide Install, ValidDeploy, TargetApp, OwnDevice, SaveApp;
      if !ValidDeploy(env, i) {
        return Some(Invalid);
      }
      if !OwnDevice(db, i.device, i.author) {
        return Some(NotFound);
      }
      var before := db;
      var app := Target(i, freshApp);
      if app.Failure? {
        return Some(app.error);
      }
      hide Inv;
      db := SaveApp(db, app.value, i);
      error := ExecInstall(app.value, i, deployment, now);
      error := Finish(before, error, commits);
    }

    method StartSession(id: string, s: Session, identity: string, commits: bool) returns (error: Option<Error>)
      requires Inv(env, db)
      modifies this
      ensures var body := Attempt(env, old(db), Start(id, s, identity)); db == Mutate(old(db), body, commits) && error == Reported(body, commits)
      ensures Inv(env, db)
    {
      ghost var body := Attempt(env, db, Start(id, s, identity));
      if body.Success? { StepEffect(env, db, Start(id, s, identity), body.value); }
      hide Inv, AtSessionLimit;
      if !(env.validId(id) && env.validId(s.app) && env.validId(s.deployment) && env.validId(s.digest)) || |identity| > 2048 {
        return Some(Invalid);
      }
      if s.app !in db.apps || s.app !in db.active || db.active[s.app] != s.deployment
         || s.deployment !in db.deployments || db.deployments[s.deployment].app != s.app {
        return Some(NotFound);
      }
      var artifact := db.deployments[s.deployment].artifact;
      if artifact !in db.artifacts {
        return Some(NotFound);
      }
      if db.apps[s.app].suspended || s.deployment in db.suspended {
        return Some(IsSuspended);
      }
      if db.artifacts[artifact].digest != s.digest {
        return Some(NotFound);
      }
      if AtSessionLimit(db, s.app) {
        return Some(OverQuota);
      }
      if id in db.sessions {
        return Some(Conflict);
      }
      var before := db;
      db := db.(sessions := db.sessions[id := s.(ended := None)]);
      error := Finish(before, None, commits);
    }

    /** Reports the end time: the first one, however often the call is replayed. */
    method EndSession(id: string, now: int, commits: bool) returns (error: Option<Error>, ended: int)
      requires Inv(env, db)
      modifies this
      ensures var body := Attempt(env, old(db), End(id, now)); db == Mutate(old(db), body, commits) && error == Reported(body, commits)
      ensures error.None? ==> id in db.sessions && db.sessions[id].ended == Some(ended)
      ensures Inv(env, db)
    {
      ghost var body := Attempt(env, db, End(id, now));
      if body.Success? { StepEffect(env, db, End(id, now), body.value); }
      hide Inv;
      ended := now;
      if !env.validId(id) {
        return Some(Invalid), ended;
      }
      if id !in db.sessions {
        return Some(NotFound), ended;
      }
      var before := db;
      if db.sessions[id].ended.Some? {
        ended := db.sessions[id].ended.value;
      } else {
        db := db.(sessions := db.sessions[id := db.sessions[id].(ended := Some(now))]);
      }
      error := Finish(before, None, commits);
    }

    /** One delete, and how many rows it affected. */
    method ExecSweep(q: Sweep, cutoff: int) returns (rows: int)
      modifies this
      ensures db == SweepOnce(old(db), q, cutoff) && rows == Rows(old(db), q) - Rows(db, q)
    {
      var before := Rows(db, q);
      db := SweepOnce(db, q, cutoff);
      rows := before - Rows(db, q);
    }

    /**
     The collection: a loop over the deletes, in whatever order they come, reporting the
     rows each removed, then the reservations of handles that have run out.
     */
    method GarbageCollect(order: seq<Sweep>, cutoff: int, now: int, commits: bool)
      returns (error: Option<Error>, counts: map<Sweep, int>)
      requires Inv(env, db) && NoRepeats(order)
      modifies this
      ensures db == Mutate(old(db), Attempt(env, old(db), Gc(order, cutoff, now)), commits) && Inv(env, db)
      ensures error == if commits then None else Some(Storage)
      ensures commits ==> forall q :: q in order ==> q in counts && counts[q] == Rows(old(db), q) - Rows(db, q)
    {
      StepEffect(env, db, Gc(order, cutoff, now), Attempt(env, db, Gc(order, cutoff, now)).value);
      hide Inv, SweepOnce;
      var before := db;
      counts := map[];
      var k := 0;
      assert order[0..] == order;
      while k < |order|
        invariant 0 <= k <= |order| && Collect(db, order[k..], cutoff) == Collect(before, order, cutoff)
        invariant forall j :: 0 <= j < k ==> order[j] in counts && counts[order[j]] == Rows(before, order[j]) - Rows(db, order[j])
        invariant forall j :: k <= j < |order| ==> Rows(db, order[j]) == Rows(before, order[j])
      {
        var q := order[k];
        assert order[k..][1..] == order[k + 1..];
        forall j | 0 <= j < |order| && j != k ensures Rows(SweepOnce(db, q, cutoff), order[j]) == Rows(db, order[j]) {
          SweepOthers(db, q, order[j], cutoff);
        }
        var rows := ExecSweep(q, cutoff);
        counts := counts[q := rows];
        k := k + 1;
      }
      ghost var collected := db;
      db := DropTombstones(db, now);
      assert forall q :: Rows(db, q) == Rows(collected, q);
      error := Finish(before, None, commits);
    }

    method ResolveRunnable(author: string, name: string) returns (r: Result<Runnable, Error>)
      requires Inv(env, db)
      ensures r != Failure(Integrity)
      ensures r.Success? ==> Named(db.apps, r.value.app, author, name) && env.digest(r.value.wasm) == r.value.digest
      ensures forall app :: env.validId(author) && Named(db.apps, app, author, name) ==>
        (r.Success? <==> app in db.active && !db.apps[app].suspended && db.active[app] !in db.suspended)
    {
      if !env.validId(author) {
        return Failure(Invalid);
      }
      var app := Lookup(author, name);
      if app.None? {
        return Failure(NotFound);
      }
      ResolveExact(env, db, author, name, app.value);
      r := ResolveApp(env, db, app.value);
    }
  }
}
