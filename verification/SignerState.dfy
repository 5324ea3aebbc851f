/**
 The Android signer's durable state: what is on its disk, what it has sent to the control plane, and
 the single effects that change either. A crash can come between any two effects.
 */
module SignerState {
  import opened Wrappers
  import opened ByteStrings

  /** A parsed job identifier. */
  type JobId = nat

  datatype ProvisionJob = ProvisionJob(
    id: JobId, claimToken: string, androidAppId: string, packageName: string, objectKey: string)

  datatype SignJob = SignJob(
    id: JobId, claimToken: string, androidAppId: string, packageName: string, projectId: string,
    deploymentId: string, unsignedDigest: string, inputMime: string, versionCode: nat,
    previousVersionCode: nat, expectedCertificate: string, keyObjectKey: string,
    keyObjectVersion: string, signedKey: string)

  datatype ProvisionCheckpoint = ProvisionCheckpoint(
    androidAppId: string, packageName: string, objectKey: string, certificate: string, encrypted: Bytes)

  datatype SignCheckpoint = SignCheckpoint(
    androidAppId: string, projectId: string, deploymentId: string, packageName: string,
    versionCode: nat, versionName: string, certificate: string, unsignedDigest: string,
    keyObjectKey: string, keyObjectVersion: string, signedKey: string, signedDigest: string, size: nat)

  datatype CompleteRequest =
    | ProvisionDone(
        client: bool, jobId: JobId, signerId: string, claimToken: string, objectKey: string,
        objectVersion: string, certificate: string)
    | SignDone(
        client: bool, jobId: JobId, signerId: string, claimToken: string, signedKey: string,
        objectVersion: string, digest: string, size: nat, packageName: string, versionCode: nat,
        versionName: string, certificate: string)

  datatype Manifest = Manifest(packageName: string, versionCode: nat, versionName: string)

  /**
   What the signer's tools read from bytes: a digest, the manifest and certificate of an APK, and the
   certificate of a sealed signing identity. Nothing is assumed about any of them.
   */
  datatype Tools = Tools(
    hash: Bytes -> string,
    manifest: Bytes -> Option<Manifest>,
    certificate: Bytes -> Option<string>,
    sealedCertificate: Bytes -> Option<string>)

  // ---- State ------------------------------------------------------------------------------

  /** One job's directory. Temporary files left by a crash stay until someone removes them. */
  datatype JobDir = JobDir(
    present: bool, temporaries: nat, provision: Option<ProvisionCheckpoint>, sign: Option<SignCheckpoint>,
    apk: Option<Bytes>)

  const NO_DIR: JobDir := JobDir(false, 0, None, None, None)

  /** What was stored for which claim, and the version the bucket gave it, if it keeps versions. */
  datatype Upload =
    | KeyUpload(key: ProvisionJob, sealed: Bytes, version: Option<string>)
    | ApkUpload(release: SignJob, apk: Bytes, version: Option<string>)

  function UploadJob(u: Upload): JobId {
    if u.KeyUpload? then u.key.id else u.release.id
  }

  datatype World = World(
    dirs: map<JobId, JobDir>, uploads: seq<Upload>, completions: seq<CompleteRequest>, completed: set<JobId>)

  const EMPTY_WORLD: World := World(map[], [], [], {})

  function DirOf(w: World, job: JobId): JobDir {
    if job in w.dirs then w.dirs[job] else NO_DIR
  }

  // ---- Effects ----------------------------------------------------------------------------

  datatype Effect =
    | MakeDir(job: JobId)
    | NewTemporary(job: JobId)
    | DropTemporary(job: JobId)
    | PersistApk(job: JobId, apk: Bytes)
    | PersistSign(job: JobId, sign: SignCheckpoint)
    | PersistProvision(job: JobId, provision: ProvisionCheckpoint)
    | Sent(upload: Upload)
    | Reported(request: CompleteRequest, accepted: bool)
    | ReportedFailure(job: JobId)
    | RemoveProvision(job: JobId)
    | RemoveSign(job: JobId)
    | RemoveApk(job: JobId)
    | RemoveDir(job: JobId)

  function SetDir(w: World, job: JobId, dir: JobDir): World {
    w.(dirs := w.dirs[job := dir])
  }

  function Apply(w: World, e: Effect): World {
    match e
    case MakeDir(j) => SetDir(w, j, DirOf(w, j).(present := true))
    case NewTemporary(j) => SetDir(w, j, DirOf(w, j).(temporaries := DirOf(w, j).temporaries + 1))
    case DropTemporary(j) => SetDir(w, j, Consume(DirOf(w, j)))
    case PersistApk(j, apk) => SetDir(w, j, Consume(DirOf(w, j)).(apk := Some(apk)))
    case PersistSign(j, sign) => SetDir(w, j, Consume(DirOf(w, j)).(sign := Some(sign)))
    case PersistProvision(j, provision) => SetDir(w, j, Consume(DirOf(w, j)).(provision := Some(provision)))
    case Sent(upload) => w.(uploads := w.uploads + [upload])
    case Reported(request, accepted) =>
      w.(completions := w.completions + [request],
         completed := w.completed + if accepted then {request.jobId} else {})
    case ReportedFailure(_) => w
    case RemoveProvision(j) => SetDir(w, j, DirOf(w, j).(provision := None))
    case RemoveSign(j) => SetDir(w, j, DirOf(w, j).(sign := None))
    case RemoveApk(j) => SetDir(w, j, DirOf(w, j).(apk := None))
    case RemoveDir(j) => SetDir(w, j, NO_DIR)
  }

  /** A rename or removal of a temporary file. */
  function Consume(dir: JobDir): JobDir {
    dir.(temporaries := if dir.temporaries > 0 then dir.temporaries - 1 else 0)
  }

  // ---- Discipline -------------------------------------------------------------------------

  /**
   The checkpoint describes the APK: its digest, size, manifest and certificate, and the version name of
   the APK it was made from.
   */
  ghost predicate Describes(tools: Tools, sign: SignCheckpoint, apk: Bytes) {
    && FromUnsigned(tools, sign.unsignedDigest, sign.packageName, sign.versionCode, sign.versionName)
    && tools.hash(apk) == sign.signedDigest
    && |apk| == sign.size
    && tools.certificate(apk) == Some(sign.certificate)
    && var manifest := tools.manifest(apk);
       manifest.Some? && manifest.value.packageName == sign.packageName
       && manifest.value.versionCode == sign.versionCode
  }

  /** Some APK with this digest, as it came from the platform, carries these in its manifest. */
  ghost predicate FromUnsigned(
    tools: Tools, digest: string, packageName: string, versionCode: nat, versionName: string)
  {
    exists apk :: tools.hash(apk) == digest
                  && tools.manifest(apk) == Some(Manifest(packageName, versionCode, versionName))
  }

  predicate SealsCertificate(tools: Tools, provision: ProvisionCheckpoint) {
    tools.sealedCertificate(provision.encrypted) == Some(provision.certificate)
  }

  /** The resumed job is the one the checkpoint was made for. */
  predicate SignMatches(sign: SignCheckpoint, job: SignJob) {
    && sign.packageName == job.packageName
    && sign.androidAppId == job.androidAppId
    && sign.projectId == job.projectId
    && sign.deploymentId == job.deploymentId
    && sign.versionCode == job.versionCode
    && sign.certificate == job.expectedCertificate
    && sign.unsignedDigest == job.unsignedDigest
    && sign.keyObjectKey == job.keyObjectKey
    && sign.keyObjectVersion == job.keyObjectVersion
    && sign.signedKey == job.signedKey
  }

  predicate ProvisionMatches(provision: ProvisionCheckpoint, job: ProvisionJob) {
    && provision.androidAppId == job.androidAppId
    && provision.packageName == job.packageName
    && provision.objectKey == job.objectKey
  }

  /** A checkpoint is resumed only for claims that agree on everything it was made for. */
  lemma ResumesOneClaim(sign: SignCheckpoint, a: SignJob, b: SignJob)
    requires SignMatches(sign, a)
    ensures SignMatches(sign, b) <==>
            && b.androidAppId == a.androidAppId && b.projectId == a.projectId && b.deploymentId == a.deploymentId
            && b.packageName == a.packageName && b.versionCode == a.versionCode
            && b.expectedCertificate == a.expectedCertificate && b.unsignedDigest == a.unsignedDigest
            && b.keyObjectKey == a.keyObjectKey && b.keyObjectVersion == a.keyObjectVersion
            && b.signedKey == a.signedKey
  {
  }

  lemma ResumesOneProvision(provision: ProvisionCheckpoint, a: ProvisionJob, b: ProvisionJob)
    requires ProvisionMatches(provision, a)
    ensures ProvisionMatches(provision, b) <==>
            b.androidAppId == a.androidAppId && b.packageName == a.packageName && b.objectKey == a.objectKey
  {
  }

  predicate ReportsSign(request: CompleteRequest, sign: SignCheckpoint)
    requires request.SignDone?
  {
    && request.signedKey == sign.signedKey
    && request.digest == sign.signedDigest
    && request.size == sign.size
    && request.packageName == sign.packageName
    && request.versionCode == sign.versionCode
    && request.versionName == sign.versionName
    && request.certificate == sign.certificate
  }

  predicate HasKeyUpload(w: World, job: JobId, version: string) {
    exists i :: 0 <= i < |w.uploads| && w.uploads[i].KeyUpload? && w.uploads[i].key.id == job
                && w.uploads[i].version == Some(version)
  }

  predicate HasApkUpload(w: World, job: JobId, version: string) {
    exists i :: 0 <= i < |w.uploads| && w.uploads[i].ApkUpload? && w.uploads[i].release.id == job
                && w.uploads[i].version == Some(version)
  }

  /** The disk backs the report, and what it reports has been uploaded. */
  predicate Reportable(w: World, request: CompleteRequest) {
    var dir := DirOf(w, request.jobId);
    match request
    case ProvisionDone(_, _, _, _, _, _, _) =>
      && dir.provision.Some? && request.certificate == dir.provision.value.certificate
      && request.objectKey == dir.provision.value.objectKey
      && HasKeyUpload(w, request.jobId, request.objectVersion)
    case SignDone(_, _, _, _, _, _, _, _, _, _, _, _) =>
      && dir.sign.Some? && ReportsSign(request, dir.sign.value)
      && HasApkUpload(w, request.jobId, request.objectVersion)
  }

  /** When the signer may perform an effect. A completed job is only ever cleaned up. */
  ghost predicate Allowed(tools: Tools, w: World, e: Effect) {
    match e
    case MakeDir(j) => j !in w.completed
    case NewTemporary(j) => j !in w.completed && DirOf(w, j).present
    case DropTemporary(j) => DirOf(w, j).temporaries > 0
    case PersistApk(j, apk) => j !in w.completed && DirOf(w, j).temporaries > 0 && DirOf(w, j).sign.None?
    case PersistSign(j, sign) =>
      var dir := DirOf(w, j);
      && j !in w.completed && dir.temporaries > 0
      && dir.sign.None? && dir.apk.Some? && Describes(tools, sign, dir.apk.value)
    case PersistProvision(j, provision) =>
      && j !in w.completed && DirOf(w, j).temporaries > 0
      && DirOf(w, j).provision.None? && SealsCertificate(tools, provision)
    case Sent(KeyUpload(job, sealed, _)) =>
      var dir := DirOf(w, job.id);
      && job.id !in w.completed && dir.provision.Some?
      && dir.provision.value.encrypted == sealed && ProvisionMatches(dir.provision.value, job)
    case Sent(ApkUpload(job, apk, _)) =>
      var dir := DirOf(w, job.id);
      && job.id !in w.completed && dir.sign.Some?
      && dir.apk == Some(apk) && SignMatches(dir.sign.value, job)
    case Reported(request, _) => request.jobId !in w.completed && Reportable(w, request)
    case ReportedFailure(j) => j !in w.completed
    case RemoveProvision(j) => j in w.completed
    case RemoveSign(j) => j in w.completed
    case RemoveApk(j) => j in w.completed && DirOf(w, j).sign.None?
    case RemoveDir(j) =>
      j in w.completed && DirOf(w, j) == NO_DIR.(present := true)
  }

  function ApplyAll(w: World, effects: seq<Effect>): World {
    if effects == [] then w
    else Apply(ApplyAll(w, effects[..|effects| - 1]), effects[|effects| - 1])
  }

  ghost predicate Disciplined(tools: Tools, w: World, effects: seq<Effect>) {
    forall k :: 0 <= k < |effects| ==> Allowed(tools, ApplyAll(w, effects[..k]), effects[k])
  }

  // ---- What always holds ------------------------------------------------------------------

  /** `sign.json` never exists without the APK it describes, and nothing without its directory. */
  ghost predicate DirSafe(tools: Tools, dir: JobDir) {
    && (dir.sign.Some? ==> dir.apk.Some? && Describes(tools, dir.sign.value, dir.apk.value))
    && (dir.provision.Some? ==> SealsCertificate(tools, dir.provision.value))
    && (!dir.present ==> dir.temporaries == 0 && dir.provision == None && dir.sign == None && dir.apk == None)
  }

  /** What was uploaded fits its claim; while the job is open it is still what the disk holds. */
  predicate UploadSafe(tools: Tools, w: World, u: Upload) {
    match u
    case KeyUpload(job, sealed, _) =>
      && tools.sealedCertificate(sealed).Some?
      && (job.id !in w.completed ==>
            DirOf(w, job.id).provision.Some? && DirOf(w, job.id).provision.value.encrypted == sealed)
    case ApkUpload(job, apk, _) =>
      && ApkFits(tools, job, apk)
      && (job.id !in w.completed ==>
            && DirOf(w, job.id).sign.Some? && SignMatches(DirOf(w, job.id).sign.value, job)
            && DirOf(w, job.id).apk == Some(apk))
  }

  /** The APK's own manifest and signature carry the claim's package, version and certificate. */
  predicate ApkFits(tools: Tools, job: SignJob, apk: Bytes) {
    && tools.certificate(apk) == Some(job.expectedCertificate)
    && var manifest := tools.manifest(apk);
       manifest.Some? && manifest.value.packageName == job.packageName
       && manifest.value.versionCode == job.versionCode
  }

  predicate SamePayload(u: Upload, v: Upload) {
    match (u, v)
    case (KeyUpload(a, s, _), KeyUpload(b, t, _)) => a.id == b.id ==> s == t
    case (ApkUpload(a, s, _), ApkUpload(b, t, _)) => a.id == b.id ==> s == t
    case _ => true
  }

  /** A completion tells the truth about an upload of its job. */
  ghost predicate Truthful(tools: Tools, request: CompleteRequest, u: Upload) {
    match (request, u)
    case (ProvisionDone(_, j, _, _, _, _, certificate), KeyUpload(job, sealed, _)) =>
      job.id == j ==> tools.sealedCertificate(sealed) == Some(certificate)
    case (SignDone(_, j, _, _, _, _, digest, size, packageName, versionCode, versionName, certificate),
          ApkUpload(job, apk, _)) =>
      job.id == j ==>
        && FromUnsigned(tools, job.unsignedDigest, packageName, versionCode, versionName)
        && tools.hash(apk) == digest && |apk| == size
        && tools.certificate(apk) == Some(certificate)
        && tools.manifest(apk).Some?
        && tools.manifest(apk).value.packageName == packageName
        && tools.manifest(apk).value.versionCode == versionCode
    case _ => true
  }

  /** Two reports of one job agree on everything that identifies what was uploaded. */
  predicate SameReport(a: CompleteRequest, b: CompleteRequest) {
    match (a, b)
    case (ProvisionDone(_, i, _, _, _, _, c), ProvisionDone(_, j, _, _, _, _, d)) => i == j ==> c == d
    case (SignDone(_, i, _, _, _, _, digest, size, p, v, n, c),
          SignDone(_, j, _, _, _, _, digest', size', p', v', n', c')) =>
      i == j ==> digest == digest' && size == size' && p == p' && v == v' && n == n' && c == c'
    case _ => true
  }

  /** While the job is open, the disk still backs what was reported. */
  predicate RequestSafe(w: World, request: CompleteRequest) {
    var dir := DirOf(w, request.jobId);
    match request
    case ProvisionDone(_, _, _, _, _, _, certificate) =>
      && HasKeyUpload(w, request.jobId, request.objectVersion)
      && (request.jobId !in w.completed ==> dir.provision.Some? && dir.provision.value.certificate == certificate)
    case SignDone(_, _, _, _, _, _, _, _, _, _, _, _) =>
      && HasApkUpload(w, request.jobId, request.objectVersion)
      && (request.jobId !in w.completed ==> dir.sign.Some? && ReportsSign(request, dir.sign.value))
  }

  ghost predicate Inv(tools: Tools, w: World) {
    && (forall j :: DirSafe(tools, DirOf(w, j)))
    && (forall i :: 0 <= i < |w.uploads| ==> UploadSafe(tools, w, w.uploads[i]))
    && (forall i, k :: 0 <= i < |w.uploads| && 0 <= k < |w.uploads| ==> SamePayload(w.uploads[i], w.uploads[k]))
    && (forall i :: 0 <= i < |w.completions| ==> RequestSafe(w, w.completions[i]))
    && (forall i, k :: 0 <= i < |w.completions| && 0 <= k < |w.uploads|
          ==> Truthful(tools, w.completions[i], w.uploads[k]))
    && (forall i, k :: 0 <= i < |w.completions| && 0 <= k < |w.completions|
          ==> SameReport(w.completions[i], w.completions[k]))
  }

  // ---- Every allowed effect keeps it ------------------------------------------------------

  /** Effects that leave what is reported alone, and change one directory. */
  lemma DirectoryEffect(tools: Tools, w: World, job: JobId, dir: JobDir)
    requires Inv(tools, w) && DirSafe(tools, dir)
    requires job !in w.completed ==>
               && (DirOf(w, job).provision.Some? ==> dir.provision == DirOf(w, job).provision)
               && (DirOf(w, job).sign.Some? ==> dir.sign == DirOf(w, job).sign && dir.apk == DirOf(w, job).apk)
    ensures Inv(tools, SetDir(w, job, dir))
  {
    hide DirSafe, ApkFits, SamePayload, Truthful, ReportsSign;
    var v := SetDir(w, job, dir);
    forall j
      ensures DirSafe(tools, DirOf(v, j))
    {
      assert j != job ==> DirOf(v, j) == DirOf(w, j);
    }
    forall i | 0 <= i < |w.uploads|
      ensures UploadSafe(tools, v, w.uploads[i])
    {
      assert UploadSafe(tools, w, w.uploads[i]);
    }
    forall i | 0 <= i < |w.completions|
      ensures RequestSafe(v, w.completions[i])
    {
      assert RequestSafe(w, w.completions[i]);
      SameUploads(w, v, w.completions[i].jobId, w.completions[i].objectVersion);
    }
  }

  lemma UploadEffect(tools: Tools, w: World, u: Upload)
    requires Inv(tools, w) && Allowed(tools, w, Sent(u))
    ensures Inv(tools, Apply(w, Sent(u)))
  {
    var v := Apply(w, Sent(u));
    assert forall j :: DirOf(v, j) == DirOf(w, j);
    assert DirSafe(tools, DirOf(w, UploadJob(u)));
    forall i | 0 <= i < |v.uploads|
      ensures UploadSafe(tools, v, v.uploads[i])
      ensures SamePayload(v.uploads[i], u) && SamePayload(u, v.uploads[i])
    {
      if i < |w.uploads| {
        assert UploadSafe(tools, w, w.uploads[i]);
      }
    }
    forall i | 0 <= i < |w.completions|
      ensures RequestSafe(v, w.completions[i]) && Truthful(tools, w.completions[i], u)
    {
      UploadsStay(w, u, w.completions[i].jobId, w.completions[i].objectVersion);
      assert RequestSafe(w, w.completions[i]);
    }
  }

  lemma SameUploads(w: World, v: World, job: JobId, version: string)
    requires v.uploads == w.uploads
    ensures HasKeyUpload(v, job, version) == HasKeyUpload(w, job, version)
    ensures HasApkUpload(v, job, version) == HasApkUpload(w, job, version)
  {
  }

  lemma UploadsStay(w: World, u: Upload, job: JobId, version: string)
    ensures HasKeyUpload(w, job, version) ==> HasKeyUpload(Apply(w, Sent(u)), job, version)
    ensures HasApkUpload(w, job, version) ==> HasApkUpload(Apply(w, Sent(u)), job, version)
  {
    var v := Apply(w, Sent(u));
    assert forall i :: 0 <= i < |w.uploads| ==> v.uploads[i] == w.uploads[i];
  }

  lemma ReportEffect(tools: Tools, w: World, request: CompleteRequest, accepted: bool)
    requires Inv(tools, w) && Allowed(tools, w, Reported(request, accepted))
    ensures Inv(tools, Apply(w, Reported(request, accepted)))
  {
    var v := Apply(w, Reported(request, accepted));
    assert forall j :: DirOf(v, j) == DirOf(w, j);
    assert DirSafe(tools, DirOf(w, request.jobId));
    hide FromUnsigned;
    forall i | 0 <= i < |w.uploads|
      ensures UploadSafe(tools, v, w.uploads[i]) && Truthful(tools, request, w.uploads[i])
    {
      assert UploadSafe(tools, w, w.uploads[i]);
    }
    forall i | 0 <= i < |v.completions|
      ensures RequestSafe(v, v.completions[i])
    {
      SameUploads(w, v, v.completions[i].jobId, v.completions[i].objectVersion);
      if i < |w.completions| {
        assert RequestSafe(w, w.completions[i]);
      }
    }
  }

  lemma EffectKeepsInv(tools: Tools, w: World, e: Effect)
    requires Inv(tools, w) && Allowed(tools, w, e)
    ensures Inv(tools, Apply(w, e))
  {
    hide Inv;
    match e {
      case Sent(u) =>
        UploadEffect(tools, w, u);
      case Reported(request, accepted) =>
        ReportEffect(tools, w, request, accepted);
      case ReportedFailure(_) =>
      case MakeDir(j) => ChangeDirectory(tools, w, e, j);
      case NewTemporary(j) => ChangeDirectory(tools, w, e, j);
      case DropTemporary(j) => ChangeDirectory(tools, w, e, j);
      case PersistApk(j, _) => ChangeDirectory(tools, w, e, j);
      case PersistSign(j, _) => ChangeDirectory(tools, w, e, j);
      case PersistProvision(j, _) => ChangeDirectory(tools, w, e, j);
      case RemoveProvision(j) => ChangeDirectory(tools, w, e, j);
      case RemoveSign(j) => ChangeDirectory(tools, w, e, j);
      case RemoveApk(j) => ChangeDirectory(tools, w, e, j);
      case RemoveDir(j) => ChangeDirectory(tools, w, e, j);
    }
  }

  lemma ChangeDirectory(tools: Tools, w: World, e: Effect, job: JobId)
    requires Inv(tools, w) && Allowed(tools, w, e)
    requires !e.Sent? && !e.Reported? && e.job == job && !e.ReportedFailure?
    ensures Inv(tools, Apply(w, e))
  {
    hide Inv, Describes, SealsCertificate;
    InvDirSafe(tools, w, job);
    var dir := DirOf(Apply(w, e), job);
    assert Apply(w, e) == SetDir(w, job, dir);
    DirectoryEffect(tools, w, job, dir);
  }

  lemma InvDirSafe(tools: Tools, w: World, job: JobId)
    requires Inv(tools, w)
    ensures DirSafe(tools, DirOf(w, job))
  {
  }

  // ---- Whole histories --------------------------------------------------------------------

  lemma DisciplinedPrefix(tools: Tools, w: World, effects: seq<Effect>, k: nat)
    requires Disciplined(tools, w, effects) && k <= |effects|
    ensures Disciplined(tools, w, effects[..k])
  {
    forall i | 0 <= i < k
      ensures Allowed(tools, ApplyAll(w, effects[..k][..i]), effects[..k][i])
    {
      assert effects[..k][..i] == effects[..i];
    }
  }

  lemma AppendIsDisciplined(tools: Tools, w: World, effects: seq<Effect>, e: Effect)
    requires Disciplined(tools, w, effects) && Allowed(tools, ApplyAll(w, effects), e)
    ensures Disciplined(tools, w, effects + [e])
    ensures ApplyAll(w, effects + [e]) == Apply(ApplyAll(w, effects), e)
  {
    hide Allowed, Apply;
    var longer := effects + [e];
    assert longer[..|effects|] == effects;
    forall k | 0 <= k < |longer|
      ensures Allowed(tools, ApplyAll(w, longer[..k]), longer[k])
    {
      if k < |effects| {
        assert longer[..k] == effects[..k];
      }
    }
  }

  lemma {:induction false} DisciplineKeepsInv(tools: Tools, w: World, effects: seq<Effect>)
    requires Inv(tools, w) && Disciplined(tools, w, effects)
    ensures Inv(tools, ApplyAll(w, effects))
  {
    hide Inv, Apply, Allowed;
    if effects == [] {
    } else {
      var n := |effects| - 1;
      DisciplinedPrefix(tools, w, effects, n);
      DisciplineKeepsInv(tools, w, effects[..n]);
      EffectKeepsInv(tools, ApplyAll(w, effects[..n]), effects[n]);
    }
  }

  /** One start of the process: the effects it was going to perform, and how many it got to. */
  datatype Run = Run(effects: seq<Effect>, survived: nat)

  function WorldAfter(w: World, runs: seq<Run>): World
    requires forall i :: 0 <= i < |runs| ==> runs[i].survived <= |runs[i].effects|
  {
    if runs == [] then w
    else
      var n := |runs| - 1;
      ApplyAll(WorldAfter(w, runs[..n]), runs[n].effects[..runs[n].survived])
  }

  /** Each start begins from what the crash before it left behind. */
  ghost predicate DisciplinedRuns(tools: Tools, w: World, runs: seq<Run>) {
    && (forall i :: 0 <= i < |runs| ==> runs[i].survived <= |runs[i].effects|)
    && forall i :: 0 <= i < |runs| ==> Disciplined(tools, WorldAfter(w, runs[..i]), runs[i].effects)
  }

  lemma EarlierRuns(tools: Tools, w: World, runs: seq<Run>)
    requires DisciplinedRuns(tools, w, runs) && runs != []
    ensures var earlier, last := runs[..|runs| - 1], runs[|runs| - 1];
            && DisciplinedRuns(tools, w, earlier)
            && (forall i :: 0 <= i < |runs| ==> runs[i].survived <= |runs[i].effects|)
            && Disciplined(tools, WorldAfter(w, earlier), last.effects)
  {
    hide Disciplined, WorldAfter;
    var earlier := runs[..|runs| - 1];
    forall i | 0 <= i < |earlier|
      ensures Disciplined(tools, WorldAfter(w, earlier[..i]), earlier[i].effects)
    {
      assert earlier[..i] == runs[..i];
    }
  }

  /** Any number of starts, each cut off by a crash after any of its effects, keeps the invariant. */
  lemma {:induction false} EveryHistoryIsSafe(tools: Tools, w: World, runs: seq<Run>)
    requires Inv(tools, w) && DisciplinedRuns(tools, w, runs)
    ensures Inv(tools, WorldAfter(w, runs))
  {
    hide Inv, Disciplined, ApplyAll, DisciplinedRuns;
    if runs == [] {
    } else {
      var earlier, last := runs[..|runs| - 1], runs[|runs| - 1];
      EarlierRuns(tools, w, runs);
      EveryHistoryIsSafe(tools, w, earlier);
      DisciplinedPrefix(tools, WorldAfter(w, earlier), last.effects, last.survived);
      DisciplineKeepsInv(tools, WorldAfter(w, earlier), last.effects[..last.survived]);
    }
  }

  /** Starting from what a history left behind, a process adds one run to it. */
  lemma OneMoreRun(tools: Tools, w: World, runs: seq<Run>, effects: seq<Effect>, survived: nat)
    requires DisciplinedRuns(tools, w, runs) && survived <= |effects|
    requires Disciplined(tools, WorldAfter(w, runs), effects)
    ensures DisciplinedRuns(tools, w, runs + [Run(effects, survived)])
    ensures WorldAfter(w, runs + [Run(effects, survived)]) == ApplyAll(WorldAfter(w, runs), effects[..survived])
  {
    hide Disciplined, ApplyAll;
    var longer := runs + [Run(effects, survived)];
    assert longer[..|runs|] == runs;
    forall i | 0 <= i < |longer|
      ensures Disciplined(tools, WorldAfter(w, longer[..i]), longer[i].effects)
    {
      if i < |runs| {
        assert longer[..i] == runs[..i];
      }
    }
  }

  /**
   Killed while it writes its first checkpoint, the signer leaves a temporary file. The job can still
   be completed by the next start, and the file is then in the way of removing the job's directory.
   */
  lemma KilledWhileWriting(tools: Tools, job: ProvisionJob, certificate: string, sealed: Bytes)
    returns (runs: seq<Run>)
    requires tools.sealedCertificate(sealed) == Some(certificate)
    ensures DisciplinedRuns(tools, EMPTY_WORLD, runs)
    ensures |runs| == 2 && runs[0].effects == runs[1].effects && runs[1].survived == |runs[1].effects|
    ensures runs[0].effects[..runs[0].survived] == [MakeDir(job.id), NewTemporary(job.id)]
    ensures var w := WorldAfter(EMPTY_WORLD, runs);
            job.id in w.completed && DirOf(w, job.id).present && DirOf(w, job.id).temporaries == 1
  {
    hide Disciplined, DisciplinedRuns, WorldAfter, ApplyAll, ProvisionRun;
    var plan := ProvisionRun(job, certificate, sealed);
    var left := SetDir(EMPTY_WORLD, job.id, NO_DIR.(present := true, temporaries := 1));
    ProvisionStarts(tools, job, certificate, sealed);
    ProvisionCompletes(tools, EMPTY_WORLD, job, certificate, sealed);
    ProvisionCompletes(tools, left, job, certificate, sealed);
    NothingHappened(tools);
    OneMoreRun(tools, EMPTY_WORLD, [], plan, 2);
    runs := [Run(plan, 2)];
    assert [] + runs == runs;
    OneMoreRun(tools, EMPTY_WORLD, runs, plan, |plan|);
    assert plan[..|plan|] == plan;
    runs := runs + [Run(plan, |plan|)];
  }

  lemma NothingHappened(tools: Tools)
    ensures DisciplinedRuns(tools, EMPTY_WORLD, []) && WorldAfter(EMPTY_WORLD, []) == EMPTY_WORLD
  {
  }

  lemma ProvisionStarts(tools: Tools, job: ProvisionJob, certificate: string, sealed: Bytes)
    ensures var plan := ProvisionRun(job, certificate, sealed);
            && |plan| == 5 && plan[..2] == [MakeDir(job.id), NewTemporary(job.id)]
            && ApplyAll(EMPTY_WORLD, plan[..2])
               == SetDir(EMPTY_WORLD, job.id, NO_DIR.(present := true, temporaries := 1))
  {
    hide ApplyAll;
    var plan := ProvisionRun(job, certificate, sealed);
    assert plan[..2] == [MakeDir(job.id), NewTemporary(job.id)];
    WritingIsDisciplined(tools, EMPTY_WORLD, job.id);
  }

  function ProvisionRun(job: ProvisionJob, certificate: string, sealed: Bytes): seq<Effect> {
    [MakeDir(job.id), NewTemporary(job.id)]
    + [PersistProvision(
         job.id, ProvisionCheckpoint(job.androidAppId, job.packageName, job.objectKey, certificate, sealed))]
    + [Sent(KeyUpload(job, sealed, Some("")))]
    + [Reported(ProvisionDone(false, job.id, "", job.claimToken, job.objectKey, "", certificate), true)]
  }

  lemma WritingIsDisciplined(tools: Tools, w: World, job: JobId)
    requires job !in w.completed
    ensures Disciplined(tools, w, [MakeDir(job), NewTemporary(job)])
    ensures ApplyAll(w, [MakeDir(job), NewTemporary(job)])
         == SetDir(w, job, DirOf(w, job).(present := true, temporaries := DirOf(w, job).temporaries + 1))
  {
    NothingIsDisciplined(tools, w);
    hide Disciplined, ApplyAll;
    assert [] + [MakeDir(job)] == [MakeDir(job)];
    assert [MakeDir(job)] + [NewTemporary(job)] == [MakeDir(job), NewTemporary(job)];
    AppendIsDisciplined(tools, w, [], MakeDir(job));
    MadeAndOpened(tools, w, job);
    AppendIsDisciplined(tools, w, [MakeDir(job)], NewTemporary(job));
  }

  lemma MadeAndOpened(tools: Tools, w: World, job: JobId)
    requires job !in w.completed
    ensures Allowed(tools, Apply(w, MakeDir(job)), NewTemporary(job))
    ensures Apply(Apply(w, MakeDir(job)), NewTemporary(job))
         == SetDir(w, job, DirOf(w, job).(present := true, temporaries := DirOf(w, job).temporaries + 1))
  {
  }

  lemma NothingIsDisciplined(tools: Tools, w: World)
    ensures Disciplined(tools, w, []) && ApplyAll(w, []) == w
  {
  }

  /** Provisioning from a fresh start, to an accepted completion, uses up the one temporary file it makes. */
  lemma ProvisionCompletes(tools: Tools, w: World, job: ProvisionJob, certificate: string, sealed: Bytes)
    requires job.id !in w.completed && DirOf(w, job.id).provision.None?
    requires tools.sealedCertificate(sealed) == Some(certificate)
    ensures Disciplined(tools, w, ProvisionRun(job, certificate, sealed))
    ensures var v := ApplyAll(w, ProvisionRun(job, certificate, sealed));
            && job.id in v.completed && DirOf(v, job.id).present
            && DirOf(v, job.id).temporaries == DirOf(w, job.id).temporaries
  {
    hide Disciplined, ApplyAll;
    var writing := [MakeDir(job.id), NewTemporary(job.id)];
    var persist := PersistProvision(
      job.id, ProvisionCheckpoint(job.androidAppId, job.packageName, job.objectKey, certificate, sealed));
    var upload := KeyUpload(job, sealed, Some(""));
    var request := ProvisionDone(false, job.id, "", job.claimToken, job.objectKey, "", certificate);
    WritingIsDisciplined(tools, w, job.id);
    AppendIsDisciplined(tools, w, writing, persist);
    AppendIsDisciplined(tools, w, writing + [persist], Sent(upload));
    var v := ApplyAll(w, writing + [persist] + [Sent(upload)]);
    assert v.uploads[|w.uploads|] == upload;
    AppendIsDisciplined(tools, w, writing + [persist] + [Sent(upload)], Reported(request, true));
  }

  /**
   `sign.json` only beside the APK it describes, one payload per job ever uploaded, every release
   uploaded as claimed, and completions that tell the truth about uploads and agree with each other.
   */
  ghost predicate History(tools: Tools, w: World) {
    && (forall j :: DirSafe(tools, DirOf(w, j)))
    && (forall u, v :: u in w.uploads && v in w.uploads ==> SamePayload(u, v))
    && (forall r, u :: r in w.completions && u in w.uploads ==> Truthful(tools, r, u))
    && (forall u :: u in w.uploads && u.ApkUpload? ==> ApkFits(tools, u.release, u.apk))
    && (forall r, s :: r in w.completions && s in w.completions ==> SameReport(r, s))
  }

  /** The history of one job never contradicts itself, whatever crashes it went through. */
  lemma JobHistoryIsConsistent(tools: Tools, runs: seq<Run>)
    requires DisciplinedRuns(tools, EMPTY_WORLD, runs)
    ensures History(tools, WorldAfter(EMPTY_WORLD, runs))
  {
    hide DirSafe, SamePayload, Truthful, ApkFits, SameReport, Disciplined, ReportsSign;
    assert Inv(tools, EMPTY_WORLD) by {
      NothingIsSafe(tools);
    }
    EveryHistoryIsSafe(tools, EMPTY_WORLD, runs);
    var w := WorldAfter(EMPTY_WORLD, runs);
    forall u | u in w.uploads && u.ApkUpload?
      ensures ApkFits(tools, u.release, u.apk)
    {
      assert UploadSafe(tools, w, u);
    }
  }

  lemma NothingIsSafe(tools: Tools)
    ensures Inv(tools, EMPTY_WORLD)
  {
  }

  /** Two reports that one checkpoint backs agree on everything that identifies what was uploaded. */
  lemma ReportsAgree(w: World, r: CompleteRequest, s: CompleteRequest)
    requires RequestSafe(w, r) && RequestSafe(w, s) && r.jobId !in w.completed && s.jobId !in w.completed
    ensures SameReport(r, s)
  {
  }
}
