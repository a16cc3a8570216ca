/**
 When the repository's transactions go through: on linked tables, each succeeds if and
 only if a condition holds that the caller could have checked in the rows beforehand.
 */
module Outcomes {
  import opened Results
  import opened Bytes
  import opened Repository

  // ----- uploads

  ghost predicate MetadataOk(env: Env, metadata: map<string, string>) {
    forall k :: k in metadata ==> env.validId(k) && |metadata[k]| <= 2048
  }

  /** Up to 64 MiB of bytes under their own digest, for an ABI that fits a byte. */
  ghost predicate UploadOk(env: Env, a: ArtifactInput) {
    env.validId(a.id) && |a.wasm| <= 64 * 1024 * 1024 && a.digest == env.digest(a.wasm) && 0 <= a.abi <= 255
  }

  /** The identifier is new, and the digest is new or stored with these very bytes. */
  ghost predicate Storable(db: Db, a: ArtifactInput) {
    a.id !in db.artifacts && (a.digest in db.blobs ==> db.blobs[a.digest].wasm == a.wasm)
  }

  lemma AddIff(env: Env, db: Db, a: ArtifactInput)
    requires Inv(env, db)
    ensures AddArtifact(env, db, a).Success? <==> Storable(db, a) && MetadataOk(env, a.metadata)
  {
    if a.digest !in db.blobs {
      NoSizeClash(env, db, a.digest, |a.wasm|);
    }
    hide SizeClash, DeploymentsLinked, ActiveLinked, SessionsLinked, NamesUnique;
    if a.digest in db.blobs {
      assert db.blobs[a.digest].size == |db.blobs[a.digest].wasm|;
    }
  }

  /** An artifact without its blob, which alone could make a new blob clash, does not occur. */
  lemma NoSizeClash(env: Env, db: Db, digest: string, size: nat)
    requires Inv(env, db) && digest !in db.blobs
    ensures !SizeClash(db, digest, size)
  {
    assert forall id :: id in db.artifacts ==> HasBlob(db.artifacts[id], db.blobs);
  }

  /** An upload goes through if and only if it is in order, storable and not recorded yet; it adds the row, its bytes and the record. */
  lemma PutIff(env: Env, db: Db, a: ArtifactInput, now: int)
    requires Inv(env, db)
    ensures PutArtifact(env, db, a, now).Success? <==>
      UploadOk(env, a) && Storable(db, a) && MetadataOk(env, a.metadata) && ("audit_" + a.id) !in db.audit
    ensures PutArtifact(env, db, a, now).Success? ==>
      var r := PutArtifact(env, db, a, now).value;
      && r.artifacts == db.artifacts[a.id := Artifact(a.digest, |a.wasm|, a.abi, a.created)]
      && r.blobs == db.blobs[a.digest := Blob(|a.wasm|, a.wasm)] && r.audit == db.audit["audit_" + a.id := now]
  {
    AddIff(env, db, a);
    if UploadOk(env, a) && AddArtifact(env, db, a).Success? {
      AddArtifactKeeps(env, db, a);
    }
    hide AddArtifact, Storable, MetadataOk, Inv;
  }

  // ----- deployments

  ghost predicate DeviceOk(db: Db, device: string, author: string) {
    device in db.devices && db.devices[device].author == author && !db.devices[device].revoked
  }

  /** A known kind and access, some source, and an upload in order. */
  ghost predicate RequestOk(env: Env, i: DeployInput) {
    && env.validId(i.author) && env.validId(i.device) && env.validId(i.app) && i.source != "" && UploadOk(env, i.artifact)
    && (i.kind == "tui" || i.kind == "cli" || i.kind == "vm") && (i.access == "public" || i.access == "restricted")
  }

  /** A named previous deployment belongs to the author's app of that name; without one, the app exists or can be created. */
  ghost predicate TargetOk(db: Db, i: DeployInput, freshApp: string) {
    if i.previous != "" then i.previous in db.deployments && Named(db.apps, db.deployments[i.previous].app, i.author, i.app)
    else freshApp !in db.apps || exists id :: Named(db.apps, id, i.author, i.app)
  }

  lemma TargetIff(db: Db, i: DeployInput, freshApp: string)
    ensures TargetApp(db, i, freshApp).Success? <==> TargetOk(db, i, freshApp)
  {}

  lemma PlaceIff(env: Env, db: Db, app: string, i: DeployInput, deployment: string)
    requires Inv(env, db) && app in db.apps && i.device in db.devices && ValidArtifact(env, i.artifact)
    ensures Place(env, db, app, i, deployment).Success? <==>
      Storable(db, i.artifact) && MetadataOk(env, i.artifact.metadata) && deployment !in db.deployments
  {
    assert forall other :: other in db.active ==> db.active[other] in db.deployments;
    hide AddArtifact, Inv, Storable, MetadataOk, ValidArtifact, PointActive;
    AddIff(env, db, i.artifact);
    if AddArtifact(env, db, i.artifact).Success? {
      AddArtifactKeeps(env, db, i.artifact);
      var added, row := AddArtifact(env, db, i.artifact).value, Deployment(app, i.artifact.id, i.device);
      if InsertDeployment(added, deployment, row).Success? {
        PointsToNew(added, app, deployment, row);
      }
    }
  }

  lemma InstallIff(env: Env, db: Db, app: string, i: DeployInput, deployment: string, now: int)
    requires Inv(env, db) && app in db.apps && i.device in db.devices && ValidArtifact(env, i.artifact)
    ensures Install(env, db, app, i, deployment, now).Success? <==>
      && Storable(db, i.artifact) && MetadataOk(env, i.artifact.metadata) && deployment !in db.deployments
      && ("audit_" + deployment) !in db.audit
    ensures Install(env, db, app, i, deployment, now).Success? ==>
      Install(env, db, app, i, deployment, now).value.audit == db.audit["audit_" + deployment := now]
  {
    hide Storable, MetadataOk, ValidArtifact, Inv, Place, Retire;
    PlaceIff(env, db, app, i, deployment);
    if Place(env, db, app, i, deployment).Success? {
      var placed := Place(env, db, app, i, deployment).value;
      PlaceKeeps(env, db, app, i, deployment, placed);
      PlaceAudit(env, db, app, i, deployment);
      if app in db.active && db.active[app] != deployment {
        RetiresCleanly(env, db, app, deployment, placed);
      }
    }
  }

  lemma PlaceAudit(env: Env, db: Db, app: string, i: DeployInput, deployment: string)
    requires Place(env, db, app, i, deployment).Success?
    ensures Place(env, db, app, i, deployment).value.audit == db.audit
  {}

  lemma RetiresCleanly(env: Env, db: Db, app: string, deployment: string, placed: Db)
    requires Inv(env, db) && Inv(env, placed) && app in db.active && db.active[app] != deployment
    requires placed.active == db.active[app := deployment]
    requires forall d :: d in db.deployments ==> d in placed.deployments
    ensures Retire(placed, db.active[app]).Success? && Retire(placed, db.active[app]).value.audit == placed.audit
  {
    var replaced := db.active[app];
    assert replaced in db.deployments;
    forall other | other in placed.active ensures placed.active[other] != replaced {
      if other != app {
        assert db.deployments[db.active[other]].app == other && db.deployments[replaced].app == app;
      }
    }
    hide Inv, Retire;
    RetireKeeps(env, placed, replaced);
    RetireAudit(placed, replaced);
  }

  lemma RetireAudit(db: Db, d: string)
    requires Retire(db, d).Success?
    ensures Retire(db, d).value.audit == db.audit
  {
    hide InUse, ArtifactUsed, DigestUsed;
  }

  /**
   A deployment goes through if and only if the request is in order, the device is the
   author's own and not revoked, the app can be told, the artifact can be stored and the
   identifier is new. Then the app carries what the request says and the act is recorded.
   */
  lemma DeployIff(env: Env, db: Db, i: DeployInput, freshApp: string, deployment: string, now: int)
    requires Inv(env, db)
    ensures Deploy(env, db, i, freshApp, deployment, now).Success? <==>
      && RequestOk(env, i) && DeviceOk(db, i.device, i.author) && TargetOk(db, i, freshApp)
      && Storable(db, i.artifact) && MetadataOk(env, i.artifact.metadata)
      && deployment !in db.deployments && ("audit_" + deployment) !in db.audit
    ensures Deploy(env, db, i, freshApp, deployment, now).Success? ==>
      var app, r := TargetApp(db, i, freshApp), Deploy(env, db, i, freshApp, deployment, now).value;
      && app.Success? && r.audit == db.audit["audit_" + deployment := now]
      && r.apps == db.apps[app.value := App(i.author, i.app, i.kind, i.access, app.value in db.apps && db.apps[app.value].suspended)]
  {
    TargetIff(db, i, freshApp);
    hide TargetOk, TargetApp, Install, Storable, MetadataOk, Inv;
    if ValidDeploy(env, i) && OwnDevice(db, i.device, i.author) && TargetApp(db, i, freshApp).Success? {
      var app := TargetApp(db, i, freshApp).value;
      TargetIsSafe(env, db, i, freshApp, app);
      var saved := SaveApp(db, app, i);
      assert Storable(saved, i.artifact) == Storable(db, i.artifact) by { StorableSaved(db, app, i); }
      InstallIff(env, saved, app, i, deployment, now);
      if Install(env, saved, app, i, deployment, now).Success? {
        InstallEffect(env, saved, app, i, deployment, now, Install(env, saved, app, i, deployment, now).value);
      }
    }
  }

  lemma StorableSaved(db: Db, app: string, i: DeployInput)
    ensures Storable(SaveApp(db, app, i), i.artifact) == Storable(db, i.artifact)
  {}

  /** A deployment row alone: its parts exist, the device may deploy for the author, and the author's limit per app is not reached. */
  lemma CreateIff(env: Env, db: Db, id: string, d: Deployment)
    ensures CreateDeployment(env, db, id, d).Success? <==>
      && env.validId(id) && env.validId(d.app) && env.validId(d.artifact) && env.validId(d.device)
      && d.app in db.apps && d.artifact in db.artifacts && DeviceOk(db, d.device, db.apps[d.app].author) && id !in db.deployments
      && BelowDeploymentLimit(db, d.app)
    ensures CreateDeployment(env, db, id, d).Success? ==> CreateDeployment(env, db, id, d).value == db.(deployments := db.deployments[id := d])
  {}

  ghost predicate BelowDeploymentLimit(db: Db, app: string)
    requires app in db.apps
  {
    var author := db.apps[app].author;
    author in db.quotas && db.quotas[author].deploymentsPerApp > 0 ==>
      |set x | x in db.deployments && db.deployments[x].app == app| < db.quotas[author].deploymentsPerApp
  }

  // ----- activation, suspension, sessions

  lemma ActivateIff(env: Env, db: Db, app: string, deployment: string)
    requires Inv(env, db)
    ensures Activate(env, db, app, deployment).Success? <==>
      env.validId(app) && env.validId(deployment) && deployment in db.deployments && db.deployments[deployment].app == app
    ensures Activate(env, db, app, deployment).Success? ==>
      Activate(env, db, app, deployment).value == db.(active := db.active[app := deployment])
    ensures Activate(env, db, app, deployment).Failure? ==>
      Activate(env, db, app, deployment).error == if env.validId(app) && env.validId(deployment) then NotFound else Invalid
  {
    hide BlobsSound, ArtifactsLinked, DeploymentsLinked, SessionsLinked, NamesUnique;
  }

  lemma SuspendIff(env: Env, db: Db, deployment: string, on: bool)
    ensures SetSuspended(env, db, deployment, on).Success? <==> env.validId(deployment) && deployment in db.deployments
    ensures SetSuspended(env, db, deployment, on).Success? ==>
      var r := SetSuspended(env, db, deployment, on).value;
      && (deployment in r.suspended <==> on)
      && forall d :: d != deployment ==> (d in r.suspended <==> d in db.suspended)
  {}

  /**
   A session starts if and only if the app's active deployment is the one asked for,
   with that digest, neither is suspended, the app has fewer open sessions than a
   positive limit of its author, and the identifier is new.
   */
  lemma StartIff(env: Env, db: Db, id: string, s: Session, identity: string)
    requires Inv(env, db) && env.validId(id) && env.validId(s.app) && env.validId(s.deployment) && env.validId(s.digest)
    ensures StartSession(env, db, id, s, identity).Success? <==>
      && |identity| <= 2048 && id !in db.sessions
      && s.app in db.active && db.active[s.app] == s.deployment && ServesDigest(db, s)
      && s.app in db.apps && !db.apps[s.app].suspended && s.deployment !in db.suspended
      && BelowSessionLimit(db, s.app)
    ensures StartSession(env, db, id, s, identity).Success? ==>
      StartSession(env, db, id, s, identity).value == db.(sessions := db.sessions[id := Session(s.app, s.deployment, s.digest, None)])
  {
    hide BlobsSound, ArtifactsLinked, SessionsLinked, NamesUnique;
    if s.app in db.active {
      assert db.active[s.app] in db.deployments && db.deployments[db.active[s.app]].app == s.app;
    }
    assert OpenOf(db.sessions, s.app) == set x | x in db.sessions && db.sessions[x].ended.None? && db.sessions[x].app == s.app;
    hide OpenOf;
  }

  /** Resolving a name: an author that is no identifier is refused, and a name without an app is not found. */
  lemma ResolveRefuses(env: Env, db: Db, author: string, name: string)
    ensures !env.validId(author) ==> ResolveRunnable(env, db, author, name) == Failure(Invalid)
    ensures env.validId(author) && (forall id :: !Named(db.apps, id, author, name)) ==> ResolveRunnable(env, db, author, name) == Failure(NotFound)
  {}

  /** Which error, in the order of the checks: what is not active, what is suspended, another digest, the limit, a used identifier. */
  lemma StartErrors(env: Env, db: Db, id: string, s: Session, identity: string)
    requires Inv(env, db) && env.validId(id) && env.validId(s.app) && env.validId(s.deployment) && env.validId(s.digest)
    requires |identity| <= 2048
    ensures var r := StartSession(env, db, id, s, identity);
      if !(s.app in db.active && db.active[s.app] == s.deployment) then r == Failure(NotFound)
      else
        && s.app in db.apps
        && if db.apps[s.app].suspended || s.deployment in db.suspended then r == Failure(IsSuspended)
           else if !ServesDigest(db, s) then r == Failure(NotFound)
           else if !BelowSessionLimit(db, s.app) then r == Failure(OverQuota)
           else id in db.sessions ==> r == Failure(Conflict)
  {
    hide BlobsSound, ArtifactsLinked, SessionsLinked, NamesUnique;
    if s.app in db.active {
      assert db.active[s.app] in db.deployments && db.deployments[db.active[s.app]].app == s.app;
    }
    assert OpenOf(db.sessions, s.app) == set x | x in db.sessions && db.sessions[x].ended.None? && db.sessions[x].app == s.app;
    hide OpenOf;
  }

  ghost predicate ServesDigest(db: Db, s: Session) {
    && s.deployment in db.deployments && db.deployments[s.deployment].artifact in db.artifacts
    && db.artifacts[db.deployments[s.deployment].artifact].digest == s.digest
  }

  ghost predicate BelowSessionLimit(db: Db, app: string)
    requires app in db.apps
  {
    var author := db.apps[app].author;
    author in db.quotas && db.quotas[author].sessions > 0 ==>
      |set x | x in db.sessions && db.sessions[x].ended.None? && db.sessions[x].app == app| < db.quotas[author].sessions
  }

  lemma EndIff(env: Env, db: Db, id: string, now: int)
    ensures EndSession(env, db, id, now).Success? <==> env.validId(id) && id in db.sessions
    ensures EndSession(env, db, id, now).Success? ==>
      var r := EndSession(env, db, id, now).value;
      r.sessions == db.sessions[id := db.sessions[id].(ended := if db.sessions[id].ended.Some? then db.sessions[id].ended else Some(now))]
  {
    if id in db.sessions && db.sessions[id].ended.Some? {
      assert db.sessions == db.sessions[id := db.sessions[id].(ended := db.sessions[id].ended)];
    }
  }

  /** Reservations of released handles last until their own time. */
  lemma TombstonesIff(db: Db, now: int, h: string)
    ensures h in DropTombstones(db, now).tombstones <==> h in db.tombstones && db.tombstones[h] > now
  {}

  /** What a caller is told: no error if and only if the transaction's own rows are in place, and otherwise none of them is. */
  lemma ReportsTruth(db: Db, body: Outcome, commits: bool)
    ensures Reported(body, commits).None? <==> body.Success? && commits
    ensures Reported(body, commits).None? ==> body.Success? && Mutate(db, body, commits) == body.value
    ensures Reported(body, commits).Some? ==> Mutate(db, body, commits) == db
    ensures body.Failure? ==> Reported(body, commits) == Some(body.error)
  {}
}
