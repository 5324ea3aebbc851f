/**
 The signer's code: each method performs its effects in the source's order, and any operation that
 can fail may fail. The trace records every effect since the process started, so a crash at any
 point leaves a prefix of it.
 */
module Signer {
  import opened Wrappers
  import opened ByteStrings
  import opened SignerState

  const APK_MIME: string := "application/vnd.android.package-archive"
  const CLIENT_PACKAGE_NAME: string := "com.sproutos.store"
  const CLIENT_APP_ID: string := "platform-catalogue-client"
  const PLATFORM: string := "platform"

  datatype SignerError =
    | WrongMime | OldVersion | WrongPackage | JobChanged | CheckpointModified | ToolFailed | UnexpectedManifest
    | WrongCertificate | TransferFailed | DiskFailed | NoObjectVersion | LongVersionName | ControlPlaneFailed

  datatype ClaimedJob =
    | ProvisionKey(provision: ProvisionJob)
    | SignRelease(sign: SignJob)
    | ProvisionClientKey(provision: ProvisionJob)
    | SignClientRelease(sign: SignJob)

  datatype UploadAnswer = Failed | Unversioned | Stored(version: string)

  /**
   What the world answers while one job is worked on: the files it can download, the identity and the
   signed APK its tools make, whether every write to the disk succeeds, what becomes of the upload, and
   whether the report arrives, is accepted, and its answer comes back.
   */
  datatype Environment = Environment(
    unsigned: Option<Bytes>,
    key: Option<Bytes>,
    signed: Option<Bytes>,
    identity: Option<Bytes>,
    diskWorks: bool,
    upload: UploadAnswer,
    delivered: bool,
    accepted: bool,
    acknowledged: bool)

  function ClaimId(claim: ClaimedJob): JobId {
    match claim
    case ProvisionKey(job) => job.id
    case SignRelease(job) => job.id
    case ProvisionClientKey(job) => job.id
    case SignClientRelease(job) => job.id
  }

  /** The catalogue client's completions differ only in kind. */
  function ForClient(request: CompleteRequest): CompleteRequest {
    match request
    case ProvisionDone(_, id, signer, token, key, version, certificate) =>
      ProvisionDone(true, id, signer, token, key, version, certificate)
    case SignDone(_, id, signer, token, key, version, digest, size, package, code, name, certificate) =>
      SignDone(true, id, signer, token, key, version, digest, size, package, code, name, certificate)
  }

  /** Everything except one job's directory is as before. */
  ghost predicate OnlyDir(before: World, after: World, job: JobId) {
    && after.uploads == before.uploads
    && after.completions == before.completions
    && after.completed == before.completed
    && forall j :: j != job ==> DirOf(after, j) == DirOf(before, j)
  }

  /** Work on one job: nothing is reported, other jobs are left alone, and a checkpoint stays as it is. */
  ghost predicate Working(before: World, after: World, job: JobId) {
    && after.completions == before.completions && after.completed == before.completed
    && (forall j :: j != job ==> DirOf(after, j) == DirOf(before, j))
    && KeepsCheckpoints(DirOf(before, job), DirOf(after, job))
    && DirOf(after, job).temporaries == DirOf(before, job).temporaries
    && (after.uploads == before.uploads || AddsUpload(before, after, job))
  }

  ghost predicate KeepsCheckpoints(before: JobDir, after: JobDir) {
    && (before.provision.Some? ==> after.provision == before.provision)
    && (before.sign.Some? ==> after.sign == before.sign && after.apk == before.apk)
  }

  /** One more upload, of what the job's directory holds. */
  ghost predicate AddsUpload(before: World, after: World, job: JobId) {
    && |after.uploads| == |before.uploads| + 1
    && after.uploads[..|before.uploads|] == before.uploads
    && match after.uploads[|before.uploads|]
       case KeyUpload(key, sealed, _) =>
         key.id == job && DirOf(after, job).provision.Some? && DirOf(after, job).provision.value.encrypted == sealed
       case ApkUpload(release, apk, _) =>
         release.id == job && DirOf(after, job).apk == Some(apk)
  }

  ghost predicate SameFiles(before: JobDir, after: JobDir) {
    after.provision == before.provision && after.sign == before.sign && after.apk == before.apk
  }

  /** What a completion must say about the claim it answers, and about the APK it was made from. */
  ghost predicate Answers(tools: Tools, request: CompleteRequest, job: SignJob) {
    && request.SignDone?
    && FromUnsigned(tools, job.unsignedDigest, job.packageName, job.versionCode, request.versionName)
    && request.jobId == job.id && request.claimToken == job.claimToken
    && request.signedKey == job.signedKey
    && request.packageName == job.packageName && request.versionCode == job.versionCode
    && request.certificate == job.expectedCertificate
  }

  /**
   One poll touches one job, leaves no temporary file behind, and reports at most one completion, of
   that job and backed by an upload.
   */
  ghost predicate Polled(before: World, after: World, job: JobId) {
    && (forall j :: j != job ==> DirOf(after, j) == DirOf(before, j))
    && DirOf(after, job).temporaries == DirOf(before, job).temporaries
    && (after.uploads == before.uploads || AddsOne(before, after, job))
    && ((after.completions == before.completions && after.completed == before.completed)
        || Reports(before, after, job))
  }

  ghost predicate AddsOne(before: World, after: World, job: JobId) {
    && |after.uploads| == |before.uploads| + 1
    && after.uploads[..|before.uploads|] == before.uploads
    && UploadJob(after.uploads[|before.uploads|]) == job
  }

  ghost predicate Reports(before: World, after: World, job: JobId) {
    && |after.completions| == |before.completions| + 1
    && after.completions[..|before.completions|] == before.completions
    && after.completions[|before.completions|].jobId == job
    && (after.completed == before.completed || after.completed == before.completed + {job})
    && AddsOne(before, after, job)
  }

  /** The completion was accepted, and the job's directory is gone. */
  ghost predicate ReportsDone(before: World, after: World, job: JobId) {
    Reports(before, after, job) && job in after.completed
    && !DirOf(after, job).present
  }

  ghost predicate AnswersKey(request: CompleteRequest, job: ProvisionJob) {
    && request.ProvisionDone?
    && request.jobId == job.id && request.claimToken == job.claimToken
    && request.objectKey == job.objectKey
  }

  // ---- When a job goes through ------------------------------------------------------------

  /** The APK's manifest names the claimed package and version code. */
  predicate NamesClaim(tools: Tools, apk: Bytes, job: SignJob) {
    var manifest := tools.manifest(apk);
    manifest.Some? && manifest.value.packageName == job.packageName && manifest.value.versionCode == job.versionCode
  }

  /** Everything that can be downloaded and signed is what the claim says it is. */
  predicate CanSign(tools: Tools, job: SignJob, env: Environment) {
    && env.unsigned.Some? && tools.hash(env.unsigned.value) == job.unsignedDigest
    && NamesClaim(tools, env.unsigned.value, job)
    && env.key.Some? && tools.sealedCertificate(env.key.value) == Some(job.expectedCertificate)
    && env.signed.Some? && NamesClaim(tools, env.signed.value, job)
    && tools.certificate(env.signed.value) == Some(job.expectedCertificate)
  }

  /** A release goes through, provided the disk works. */
  predicate ReleaseSucceeds(tools: Tools, dir: JobDir, job: SignJob, env: Environment) {
    && job.inputMime == "application/vnd.android.package-archive"
    && job.versionCode > job.previousVersionCode && env.upload.Stored?
    && (if dir.sign.Some? then SignMatches(dir.sign.value, job) else CanSign(tools, job, env))
  }

  predicate ProvisionSucceeds(tools: Tools, dir: JobDir, job: ProvisionJob, env: Environment) {
    && env.upload.Stored?
    && (if dir.provision.Some? then ProvisionMatches(dir.provision.value, job)
        else env.identity.Some? && tools.sealedCertificate(env.identity.value).Some?)
  }

  /** The version name a release will report. */
  function ReleaseName(tools: Tools, dir: JobDir, job: SignJob, env: Environment): string
    requires ReleaseSucceeds(tools, dir, job, env)
  {
    if dir.sign.Some? then dir.sign.value.versionName else tools.manifest(env.unsigned.value).value.versionName
  }

  /** The catalogue client's jobs, with the identity the service gives them. */
  function ClientProvision(job: ProvisionJob): ProvisionJob {
    job.(androidAppId := "platform-catalogue-client")
  }

  function ClientRelease(job: SignJob): SignJob {
    job.(androidAppId := "platform-catalogue-client", projectId := "platform", deploymentId := "platform")
  }

  /** Nothing fails but what the job itself is refused for. */
  predicate Calm(env: Environment) {
    env.diskWorks && env.delivered && env.accepted && env.acknowledged
  }

  predicate JobSucceeds(tools: Tools, dir: JobDir, claim: ClaimedJob, env: Environment) {
    match claim
    case ProvisionKey(job) => ProvisionSucceeds(tools, dir, job, env)
    case SignRelease(job) => ReleaseSucceeds(tools, dir, job, env)
    case ProvisionClientKey(job) =>
      job.packageName == "com.sproutos.store" && ProvisionSucceeds(tools, dir, ClientProvision(job), env)
    case SignClientRelease(job) =>
      && job.packageName == "com.sproutos.store" && ReleaseSucceeds(tools, dir, ClientRelease(job), env)
      && |ReleaseName(tools, dir, ClientRelease(job), env)| <= 100
  }

  class Process {
    const tools: Tools
    const signerId: string
    const start: World
    var trace: seq<Effect>
    var world: World

    /** Everything done since the start was allowed, and the world is its result. */
    ghost predicate Valid()
      reads this
    {
      Inv(tools, start) && Disciplined(tools, start, trace) && world == ApplyAll(start, trace)
    }

    /** Starting, or restarting after a crash: nothing but the world survives. */
    constructor (tools: Tools, signerId: string, world: World)
      requires Inv(tools, world)
      ensures Valid() && this.world == world && this.tools == tools && this.signerId == signerId
      ensures start == world && trace == []
    {
      this.tools := tools;
      this.signerId := signerId;
      this.start := world;
      this.world := world;
      this.trace := [];
    }

    /** A crash after any number of effects leaves a world that a new process can start from. */
    lemma CrashIsSafe(k: nat)
      requires Valid() && k <= |trace|
      ensures Inv(tools, ApplyAll(start, trace[..k]))
    {
      DisciplinedPrefix(tools, start, trace, k);
      DisciplineKeepsInv(tools, start, trace[..k]);
    }

    lemma WorldIsSafe()
      requires Valid()
      ensures Inv(tools, world)
    {
      DisciplineKeepsInv(tools, start, trace);
    }

    method Perform(e: Effect)
      requires Valid() && Allowed(tools, world, e)
      modifies this
      ensures Valid() && trace == old(trace) + [e] && world == Apply(old(world), e)
    {
      hide Inv, Allowed, Apply;
      AppendIsDisciplined(tools, start, trace, e);
      trace := trace + [e];
      world := Apply(world, e);
    }

    // ---- The state store ------------------------------------------------------------------

    /** Creating the directory and a temporary file with the content to persist. */
    method WriteTemporary(job: JobId, diskWorks: bool) returns (ok: bool)
      requires Valid() && job !in world.completed
      modifies this
      ensures Valid() && old(trace) <= trace
      ensures OnlyDir(old(world), world, job) && SameFiles(DirOf(old(world), job), DirOf(world, job))
      ensures DirOf(world, job).temporaries == DirOf(old(world), job).temporaries + if ok then 1 else 0
      ensures diskWorks ==> ok
    {
      hide Inv, Disciplined, ApplyAll;
      var created: bool := *;
      if !(created || diskWorks) {
        return false;
      }
      Perform(MakeDir(job));
      var restricted: bool := *;
      if !(restricted || diskWorks) {
        return false;
      }
      Perform(NewTemporary(job));
      var written: bool := *;
      if !(written || diskWorks) {
        Perform(DropTemporary(job));
        return false;
      }
      return true;
    }

    method SaveProvision(job: JobId, checkpoint: ProvisionCheckpoint, diskWorks: bool) returns (ok: bool)
      requires Valid() && job !in world.completed
      requires DirOf(world, job).provision.None? && SealsCertificate(tools, checkpoint)
      modifies this
      ensures Valid() && old(trace) <= trace
      ensures OnlyDir(old(world), world, job)
      ensures DirOf(world, job).sign == old(DirOf(world, job).sign)
      ensures DirOf(world, job).apk == old(DirOf(world, job).apk)
      ensures DirOf(world, job).temporaries == old(DirOf(world, job).temporaries)
      ensures ok ==> DirOf(world, job).provision == Some(checkpoint)
      ensures diskWorks ==> ok
    {
      hide Inv, Disciplined, ApplyAll, SealsCertificate;
      ok := WriteTemporary(job, diskWorks);
      if !ok {
        return;
      }
      Perform(PersistProvision(job, checkpoint));
      var restricted: bool := *;
      return restricted || diskWorks;
    }

    /** The APK is in place before the checkpoint that describes it. */
    method SaveSign(job: JobId, apk: Bytes, checkpoint: SignCheckpoint, diskWorks: bool) returns (ok: bool)
      requires Valid() && job !in world.completed
      requires DirOf(world, job).sign.None? && Describes(tools, checkpoint, apk)
      modifies this
      ensures Valid() && old(trace) <= trace
      ensures OnlyDir(old(world), world, job)
      ensures DirOf(world, job).provision == old(DirOf(world, job).provision)
      ensures DirOf(world, job).temporaries == old(DirOf(world, job).temporaries)
      ensures ok ==> DirOf(world, job).sign == Some(checkpoint) && DirOf(world, job).apk == Some(apk)
      ensures diskWorks ==> ok
    {
      hide Inv, Disciplined, ApplyAll, Describes;
      ok := WriteTemporary(job, diskWorks);
      if !ok {
        return;
      }
      Perform(PersistApk(job, apk));
      var restricted: bool := *;
      if !(restricted || diskWorks) {
        return false;
      }
      assert OnlyDir(old(world), world, job);
      ok := WriteTemporary(job, diskWorks);
      assert OnlyDir(old(world), world, job);
      if !ok {
        return;
      }
      Perform(PersistSign(job, checkpoint));
      restricted := *;
      return restricted || diskWorks;
    }

    /**
     Removing a completed job's files, the checkpoint before the APK it describes. On a reliable disk,
     one that fails no removal it can perform, only a stray temporary file is in the way.
     */
    method MarkComplete(job: JobId, reliable: bool) returns (ok: bool)
      requires Valid() && job in world.completed
      modifies this
      ensures Valid() && old(trace) <= trace
      ensures OnlyDir(old(world), world, job)
      ensures DirOf(world, job).temporaries == old(DirOf(world, job).temporaries)
      ensures ok ==> !DirOf(world, job).present
      ensures ok ==> !old(DirOf(world, job).present) || old(DirOf(world, job).temporaries) == 0
      ensures reliable && (!old(DirOf(world, job).present) || old(DirOf(world, job).temporaries) == 0) ==> ok
    {
      hide Inv, Disciplined, ApplyAll;
      if !DirOf(world, job).present {
        return true;
      }
      ok := DeleteProvision(job, reliable);
      if ok {
        ok := DeleteSign(job, reliable);
      }
      if ok {
        ok := DeleteApk(job, reliable);
      }
      if !ok || DirOf(world, job).temporaries > 0 {
        return false;
      }
      var removed: bool := *;
      removed := removed || reliable;
      if removed {
        Perform(RemoveDir(job));
      }
      return removed;
    }

    /** Deleting one file: a missing file is not an error. */
    method DeleteProvision(job: JobId, reliable: bool) returns (ok: bool)
      requires Valid() && job in world.completed
      modifies this
      ensures Valid() && old(trace) <= trace && OnlyDir(old(world), world, job)
      ensures reliable ==> ok
      ensures DirOf(world, job)
           == old(DirOf(world, job)).(provision := if ok then None else old(DirOf(world, job).provision))
    {
      hide Inv, Disciplined, ApplyAll;
      ok := *;
      ok := ok || reliable;
      if ok && DirOf(world, job).provision.Some? {
        Perform(RemoveProvision(job));
      }
    }

    method DeleteSign(job: JobId, reliable: bool) returns (ok: bool)
      requires Valid() && job in world.completed
      modifies this
      ensures Valid() && old(trace) <= trace && OnlyDir(old(world), world, job)
      ensures reliable ==> ok
      ensures DirOf(world, job) == old(DirOf(world, job)).(sign := if ok then None else old(DirOf(world, job).sign))
    {
      hide Inv, Disciplined, ApplyAll;
      ok := *;
      ok := ok || reliable;
      if ok && DirOf(world, job).sign.Some? {
        Perform(RemoveSign(job));
      }
    }

    method DeleteApk(job: JobId, reliable: bool) returns (ok: bool)
      requires Valid() && job in world.completed && DirOf(world, job).sign.None?
      modifies this
      ensures Valid() && old(trace) <= trace && OnlyDir(old(world), world, job)
      ensures reliable ==> ok
      ensures DirOf(world, job) == old(DirOf(world, job)).(apk := if ok then None else old(DirOf(world, job).apk))
    {
      hide Inv, Disciplined, ApplyAll;
      ok := *;
      ok := ok || reliable;
      if ok && DirOf(world, job).apk.Some? {
        Perform(RemoveApk(job));
      }
    }

    // ---- Jobs -----------------------------------------------------------------------------

    method ProvisionSigningKey(job: ProvisionJob, env: Environment) returns (r: Result<CompleteRequest, SignerError>)
      requires Valid() && job.id !in world.completed
      modifies this
      ensures Valid() && old(trace) <= trace
      ensures Working(old(world), world, job.id)
      ensures r.Ok? ==> AddsUpload(old(world), world, job.id) && r.value.signerId == signerId
      ensures r.Ok? ==> AnswersKey(r.value, job) && !r.value.client
      ensures r.Ok? ==> Reportable(world, r.value)
      ensures r.Ok? ==> ProvisionSucceeds(tools, DirOf(old(world), job.id), job, env)
      ensures env.diskWorks && ProvisionSucceeds(tools, DirOf(old(world), job.id), job, env) ==> r.Ok?
    {
      hide Inv, Disciplined, ApplyAll, ProvisionMatches, DirSafe;
      var checkpoint;
      var saved := DirOf(world, job.id).provision;
      if saved.Some? {
        checkpoint := saved.value;
        if !ProvisionMatches(checkpoint, job) {
          return Err(JobChanged);
        }
      } else {
        if env.identity.None? {
          return Err(ToolFailed);
        }
        var sealed := env.identity.value;
        var certificate := tools.sealedCertificate(sealed);
        if certificate.None? {
          return Err(ToolFailed);
        }
        checkpoint := ProvisionCheckpoint(
          job.androidAppId, job.packageName, job.objectKey, certificate.value, sealed);
        var ok := SaveProvision(job.id, checkpoint, env.diskWorks);
        if !ok {
          return Err(DiskFailed);
        }
        FreshMatches(job, certificate.value, sealed);
      }
      if env.upload.Failed? {
        return Err(TransferFailed);
      }
      var version := if env.upload.Stored? then Some(env.upload.version) else None;
      var upload := KeyUpload(job, checkpoint.encrypted, version);
      Perform(Sent(upload));
      assert world.uploads[|world.uploads| - 1] == upload;
      if version.None? {
        return Err(NoObjectVersion);
      }
      MatchedObjectKey(checkpoint, job);
      return Ok(ProvisionDone(
        false, job.id, signerId, job.claimToken, job.objectKey, version.value, checkpoint.certificate));
    }

    /** The checks and tools between the claim and a signed APK that is ready to be saved. */
    method SignFresh(job: SignJob, env: Environment) returns (r: Result<(Bytes, SignCheckpoint), SignerError>)
      ensures r.Ok? <==> CanSign(tools, job, env)
      ensures r.Ok? ==> Describes(tools, r.value.1, r.value.0) && SignMatches(r.value.1, job)
      ensures r.Ok? ==> r.value.0 == env.signed.value
                        && tools.manifest(env.unsigned.value)
                           == Some(Manifest(job.packageName, job.versionCode, r.value.1.versionName))
      ensures r.Err? ==> r.error != CheckpointModified
    {
      if env.unsigned.None? || tools.hash(env.unsigned.value) != job.unsignedDigest {
        return Err(TransferFailed);
      }
      var manifest := tools.manifest(env.unsigned.value);
      if manifest.None? {
        return Err(ToolFailed);
      }
      if manifest.value.packageName != job.packageName || manifest.value.versionCode != job.versionCode {
        return Err(UnexpectedManifest);
      }
      if env.key.None? {
        return Err(TransferFailed);
      }
      var keyCertificate := tools.sealedCertificate(env.key.value);
      if keyCertificate.None? {
        return Err(ToolFailed);
      }
      if keyCertificate.value != job.expectedCertificate {
        return Err(WrongCertificate);
      }
      if env.signed.None? {
        return Err(ToolFailed);
      }
      var signed := env.signed.value;
      var signedManifest := tools.manifest(signed);
      if signedManifest.None? {
        return Err(ToolFailed);
      }
      if signedManifest.value.packageName != job.packageName || signedManifest.value.versionCode != job.versionCode {
        return Err(UnexpectedManifest);
      }
      var certificate := tools.certificate(signed);
      if certificate.None? {
        return Err(ToolFailed);
      }
      if certificate.value != job.expectedCertificate {
        return Err(WrongCertificate);
      }
      assert manifest.value == Manifest(job.packageName, job.versionCode, manifest.value.versionName);
      return Ok((signed, SignCheckpoint(
        job.androidAppId, job.projectId, job.deploymentId, manifest.value.packageName,
        manifest.value.versionCode, manifest.value.versionName, certificate.value, job.unsignedDigest,
        job.keyObjectKey, job.keyObjectVersion, job.signedKey, tools.hash(signed), |signed|)));
    }

    method SignOneRelease(job: SignJob, env: Environment) returns (r: Result<CompleteRequest, SignerError>)
      requires Valid() && job.id !in world.completed
      modifies this
      ensures Valid() && old(trace) <= trace
      ensures Working(old(world), world, job.id)
      ensures r.Ok? ==> AddsUpload(old(world), world, job.id) && r.value.signerId == signerId
      ensures job.inputMime != APK_MIME ==> r == Err(WrongMime)
      ensures r.Ok? ==> ReleaseSucceeds(tools, DirOf(old(world), job.id), job, env)
      ensures r.Ok? ==>
                r.value.SignDone? && r.value.versionName == ReleaseName(tools, DirOf(old(world), job.id), job, env)
      ensures env.diskWorks && ReleaseSucceeds(tools, DirOf(old(world), job.id), job, env) ==> r.Ok?
      ensures r != Err(CheckpointModified)
      ensures r.Ok? ==> Answers(tools, r.value, job) && !r.value.client
      ensures r.Ok? ==> Reportable(world, r.value)
    {
      hide Inv, Disciplined, ApplyAll, SignMatches, Describes, FromUnsigned, CanSign;
      if job.inputMime != APK_MIME {
        return Err(WrongMime);
      }
      if job.versionCode <= job.previousVersionCode {
        return Err(OldVersion);
      }
      var checkpoint;
      var saved := DirOf(world, job.id).sign;
      WorldIsSafe();
      InvDirSafe(tools, world, job.id);
      if saved.Some? {
        checkpoint := saved.value;
        if !SignMatches(checkpoint, job) {
          return Err(JobChanged);
        }
        DigestStillMatches(tools, DirOf(world, job.id));
        StillDescribes(tools, DirOf(world, job.id));
        if tools.hash(DirOf(world, job.id).apk.value) != checkpoint.signedDigest {
          return Err(CheckpointModified);
        }
      } else {
        var signed := SignFresh(job, env);
        if signed.Err? {
          return Err(signed.error);
        }
        checkpoint := signed.value.1;
        var ok := SaveSign(job.id, signed.value.0, checkpoint, env.diskWorks);
        if !ok {
          return Err(DiskFailed);
        }
      }
      var apk := DirOf(world, job.id).apk.value;
      if env.upload.Failed? {
        return Err(TransferFailed);
      }
      var version := if env.upload.Stored? then Some(env.upload.version) else None;
      var upload := ApkUpload(job, apk, version);
      Perform(Sent(upload));
      assert world.uploads[|world.uploads| - 1] == upload;
      if version.None? {
        return Err(NoObjectVersion);
      }
      r := Ok(SignDone(
        false, job.id, signerId, job.claimToken, job.signedKey, version.value, checkpoint.signedDigest,
        checkpoint.size, checkpoint.packageName, checkpoint.versionCode, checkpoint.versionName,
        checkpoint.certificate));
      MatchedFields(checkpoint, job);
      MatchedName(tools, checkpoint, apk, job);
    }

    /** The four kinds of job; the catalogue client's are checked and relabelled. */
    method Execute(claim: ClaimedJob, env: Environment) returns (r: Result<CompleteRequest, SignerError>)
      requires Valid() && ClaimId(claim) !in world.completed
      modifies this
      ensures Valid() && old(trace) <= trace
      ensures Working(old(world), world, ClaimId(claim))
      ensures r.Ok? ==> AddsUpload(old(world), world, ClaimId(claim)) && r.value.signerId == signerId
      ensures r.Ok? ==> r.value.jobId == ClaimId(claim)
      ensures r.Ok? ==> r.value.client == (claim.ProvisionClientKey? || claim.SignClientRelease?)
      ensures r.Ok? && (claim.ProvisionKey? || claim.ProvisionClientKey?) ==> AnswersKey(r.value, claim.provision)
      ensures r.Ok? && claim.SignRelease? ==> Answers(tools, r.value, claim.sign)
      ensures r.Ok? && claim.SignClientRelease? ==>
                && Answers(tools, r.value, claim.sign)
                && r.value.packageName == CLIENT_PACKAGE_NAME && |r.value.versionName| <= 100
      ensures r.Ok? ==> Reportable(world, r.value)
      ensures r.Ok? ==> JobSucceeds(tools, DirOf(old(world), ClaimId(claim)), claim, env)
      ensures env.diskWorks && JobSucceeds(tools, DirOf(old(world), ClaimId(claim)), claim, env) ==> r.Ok?
    {
      hide Inv, Disciplined, ApplyAll, HasKeyUpload, HasApkUpload, FromUnsigned, SignMatches, ProvisionMatches;
      match claim {
        case ProvisionKey(job) =>
          r := ProvisionSigningKey(job, env);
        case SignRelease(job) =>
          r := SignOneRelease(job, env);
        case ProvisionClientKey(job) =>
          if job.packageName != CLIENT_PACKAGE_NAME {
            return Err(WrongPackage);
          }
          r := ProvisionSigningKey(job.(androidAppId := CLIENT_APP_ID), env);
          if r.Ok? {
            r := Ok(ForClient(r.value));
          }
        case SignClientRelease(job) =>
          if job.packageName != CLIENT_PACKAGE_NAME {
            return Err(WrongPackage);
          }
          r := SignOneRelease(job.(
            androidAppId := CLIENT_APP_ID, projectId := PLATFORM, deploymentId := PLATFORM), env);
          if r.Ok? {
            if |r.value.versionName| > 100 {
              return Err(LongVersionName);
            }
            r := Ok(ForClient(r.value));
          }
      }
    }

    /** One poll. The control plane never claims a completed job again. */
    method RunOnce(claim: Option<ClaimedJob>, env: Environment) returns (r: Result<bool, SignerError>)
      requires Valid() && (claim.Some? ==> ClaimId(claim.value) !in world.completed)
      modifies this
      ensures Valid() && old(trace) <= trace
      ensures claim.None? ==> r == Ok(false) && trace == old(trace)
      ensures claim.Some? ==> Polled(old(world), world, ClaimId(claim.value))
      ensures claim.Some? && r == Ok(true) ==>
                ReportsDone(old(world), world, ClaimId(claim.value))
                || (|trace| > |old(trace)| && trace[|trace| - 1] == ReportedFailure(ClaimId(claim.value)))
      ensures claim.Some? && Calm(env) && DirOf(old(world), ClaimId(claim.value)).temporaries == 0 ==>
                && r == Ok(true)
                && (JobSucceeds(tools, DirOf(old(world), ClaimId(claim.value)), claim.value, env)
                    <==> ReportsDone(old(world), world, ClaimId(claim.value)))
    {
      hide Inv, Disciplined, ApplyAll, Allowed, JobSucceeds, Reportable, Answers, AnswersKey;
      if !claim.Some? {
        return Ok(false);
      }
      var result := Execute(claim.value, env);
      if result.Ok? {
        if !env.delivered {
          return Err(ControlPlaneFailed);
        }
        ReportIsAllowed(tools, world, result.value, env.accepted);
        Perform(Reported(result.value, env.accepted));
        if !env.accepted || !env.acknowledged {
          return Err(ControlPlaneFailed);
        }
        var ok := MarkComplete(ClaimId(claim.value), env.diskWorks);
        return if ok then Ok(true) else Err(DiskFailed);
      } else {
        if !env.delivered {
          return Err(ControlPlaneFailed);
        }
        FailureIsAllowed(tools, world, ClaimId(claim.value));
        Perform(ReportedFailure(ClaimId(claim.value)));
        return Ok(true);
      }
    }

    /**
     The service polls until a poll fails. The offers are what the control plane answers; it never
     offers a completed job. A service that is not killed leaves no temporary file behind.
     */
    method Serve(offers: seq<Option<ClaimedJob>>, answers: nat -> Environment) returns (failed: bool)
      requires Valid()
      modifies this
      ensures Valid() && old(trace) <= trace
      ensures forall j :: DirOf(world, j).temporaries == old(DirOf(world, j).temporaries)
    {
      hide Inv, Disciplined, ApplyAll;
      for k := 0 to |offers|
        invariant Valid() && old(trace) <= trace
        invariant forall j :: DirOf(world, j).temporaries == old(DirOf(world, j).temporaries)
      {
        ghost var before := world;
        var claim := if offers[k].Some? && ClaimId(offers[k].value) in world.completed then None else offers[k];
        assert claim.None? && trace == [] ==> world == before;
        var polled := RunOnce(claim, answers(k));
        if polled.Err? {
          return true;
        }
      }
      return false;
    }
  }

  /** The service started once per list of offers and killed each time after so many effects, or not at all. */
  method Lives(
    tools: Tools, signerId: string, offers: seq<seq<Option<ClaimedJob>>>, answers: seq<nat -> Environment>,
    killedAfter: seq<nat>)
    returns (world: World, runs: seq<Run>)
    requires |killedAfter| == |answers| == |offers|
    ensures |runs| == |offers| && DisciplinedRuns(tools, EMPTY_WORLD, runs)
    ensures world == WorldAfter(EMPTY_WORLD, runs)
    ensures History(tools, world)
  {
    hide Inv, Disciplined, ApplyAll, History;
    world, runs := EMPTY_WORLD, [];
    NothingIsSafe(tools);
    for k := 0 to |offers|
      invariant |runs| == k && DisciplinedRuns(tools, EMPTY_WORLD, runs)
      invariant world == WorldAfter(EMPTY_WORLD, runs) && Inv(tools, world)
    {
      var service := new Process(tools, signerId, world);
      var failed := service.Serve(offers[k], answers[k]);
      var survived := Minimum(killedAfter[k], |service.trace|);
      OneMoreRun(tools, EMPTY_WORLD, runs, service.trace, survived);
      service.CrashIsSafe(survived);
      world, runs := ApplyAll(world, service.trace[..survived]), runs + [Run(service.trace, survived)];
    }
    JobHistoryIsConsistent(tools, runs);
  }

  lemma FailureIsAllowed(tools: Tools, w: World, job: JobId)
    requires job !in w.completed
    ensures Allowed(tools, w, ReportedFailure(job))
  {
  }

  lemma ReportIsAllowed(tools: Tools, w: World, request: CompleteRequest, accepted: bool)
    requires request.jobId !in w.completed && Reportable(w, request)
    ensures Allowed(tools, w, Reported(request, accepted))
  {
  }

  lemma FreshMatches(job: ProvisionJob, certificate: string, sealed: Bytes)
    ensures ProvisionMatches(
              ProvisionCheckpoint(job.androidAppId, job.packageName, job.objectKey, certificate, sealed), job)
  {
  }

  lemma MatchedObjectKey(checkpoint: ProvisionCheckpoint, job: ProvisionJob)
    requires ProvisionMatches(checkpoint, job)
    ensures checkpoint.objectKey == job.objectKey
  {
  }

  lemma MatchedFields(checkpoint: SignCheckpoint, job: SignJob)
    requires SignMatches(checkpoint, job)
    ensures checkpoint.packageName == job.packageName && checkpoint.versionCode == job.versionCode
    ensures checkpoint.certificate == job.expectedCertificate && checkpoint.signedKey == job.signedKey
  {
  }

  lemma MatchedName(tools: Tools, checkpoint: SignCheckpoint, apk: Bytes, job: SignJob)
    requires SignMatches(checkpoint, job) && Describes(tools, checkpoint, apk)
    ensures FromUnsigned(tools, job.unsignedDigest, job.packageName, job.versionCode, checkpoint.versionName)
  {
  }

  lemma StillDescribes(tools: Tools, dir: JobDir)
    requires DirSafe(tools, dir) && dir.sign.Some?
    ensures dir.apk.Some? && Describes(tools, dir.sign.value, dir.apk.value)
  {
  }

  lemma DigestStillMatches(tools: Tools, dir: JobDir)
    requires DirSafe(tools, dir) && dir.sign.Some?
    ensures dir.apk.Some? && tools.hash(dir.apk.value) == dir.sign.value.signedDigest
  {
  }
}
