# SproutOS: verified models of its hard cores

SproutOS deploys projects, runs template plugins on a customer's workspace, follows logs, signs
Android packages and proxies database sessions. This project models the parts of it whose correctness
is hardest to see from the code, and proves what they are for. Each module stands for one component;
imperative code is a class or a method with loops, proved against functions about which the lemmas
then speak; protocols are state machines over their steps.

- **Template workspace transaction** (`Paths`, `Workspace`, `FileTree`, `Snapshots`, `Replay`,
  `Obstacles`, `Spellings`, `Commit`, `Metadata`, `Transaction`, `Refusals`). A plugin runs on a
  staged copy that lacks every `.git`. The host computes the real difference of two snapshots and
  requires the plugin's report to equal it, then replays it file by file onto the real tree and
  validates again. The file system is a tree whose operations fail where the operating system's fail,
  follow symbolic links, and look names up under an arbitrary case folding. Result: a run that passes
  every check made before the replay commits exactly the validated list if and only if three
  conditions hold that can be read off the workspace and the plugin's result: no changed path meets
  something in a nested `.git` the plugin could not see; a name that is written was not in the
  workspace under another spelling, or that spelling is deleted earlier in path order; and the
  plugin's result together with the unseen metadata fits the limits. Otherwise the run fails and may
  have touched the workspace. The code has all three cases, each with a concrete instance: a nested
  `.git`, metadata over the limit, and a rename from `readme` to `README`, which loses the file. What
  does not clash goes through: a plugin can add new files inside a nested `.git` it could not see, and
  they are committed. However a run ends, in a workspace without nested repositories the root `.git`
  is as it was if no written path respells that name; and, as long as no link is in the way, exactly
  when no write that is reached leads into it under another spelling. A plugin that makes a file
  `.GIT` where `.git` is a file has overwritten it when the commit fails. What is committed is the
  plugin's work: every visible file has its bytes and permission, and the list describes the files.
- **Resumable log stream** (`SseFraming`, `SseStandard`, `SseFields`, `SseLines`, `Utf8`, `LogFollow`,
  `LogDelivery`). A byte-level framer over arbitrary chunks, a field parser and a reconnect loop.
  Results: framing does not depend on the chunking, with the exact condition under which the frame
  limit could; it cuts a stream as the HTML standard does exactly when blank lines are written in one
  of two ways; rendering and parsing are inverse, so the consumer's loop does what it would do if it
  were handed the events; over any connections, truncations and refusals the consumer takes a gap-free
  prefix of the server's log; retries are bounded between server checkpoints. Nothing good is refused:
  any records sent as the protocol says are all taken, and each control event has the effect it names.
- **Crash-resumable signer** (`SignerState`, `Signer`). Disk, uploads and completions as a world
  changed by single effects, with a crash possible between any two. Every method of the process may
  perform only allowed effects, and every history of allowed effects keeps what is on disk, uploaded
  and reported consistent; a service started and killed any number of times makes such a history. What
  downloads, tools, uploads and the control plane answer to a poll is a record passed to it, and a poll
  completes its job exactly when those answers allow it.
- **Seccomp filter** (`Seccomp`). The deny-list compiler, the classic BPF machine as its semantics, and
  compiler correctness down to the bytes; and the static-ELF check.
- **Migration lock** (`DeployLock`, `DeployRun`). Any number of replicas, every query one step, any
  interleaving, time-outs and failing migrations; one replica's call as a method over that state.
  Migrations run, are reported and are recorded in file order.
- **APK container** (`ApkZip`, `Scan`). The backward search for the end record, ZIP64, the duplicate
  name check, the signing block; and the streaming search for its magic.
- **PostgreSQL backend session** (`PgFrames`, `PgStartup`, `PgBackend`). Message framing, the startup
  packet, authentication with the exact condition for its success, SCRAM included, and the role drop;
  what a connection sends parses back to what was asked for and the tenant's role.
- **Static packaging** (`StaticTrees`, `StaticCopy`, `StaticUnion`, `StagedLinks`, `Diversion`,
  `NameDetour`). Several directory trees, symbolic links included, are staged into one. The result is
  their disjoint union exactly when the request is usable, the mappings are pairwise disjoint, every
  link leads into its own source tree and no two names differ in spelling only. Otherwise the call can
  still succeed: a staged link, or another spelling, diverts a later mapping to a place that belongs to
  none, with a concrete instance of each. In the union a link that finds its way inside its source tree
  leads to the copy; one that leaves the tree and comes back by name passes the check and is lost.
- **Shell quoting, descriptors, bounded reads, polling, UUIDs** (`ShellQuote`, `Descriptors`,
  `BoundedRead`, `Polling`, `Uuid`).

Digests, JSON decoders, Android tools, SCRAM and MD5 are arbitrary functions passed as parameters; the
network, the consumer and the clock are scripts of what they did; where the code leaves a choice to
the world (how many bytes a read returns, whether a write fails) the models choose arbitrarily. Where
a result needs a digest to tell contents apart it says so, and only for the contents that occur.

## Model

| member | source | states |
|---|---|---|
| Workspace.Difference | packages/sprout-core/src/workspace.rs:254-301 | the result holds one item per differing path, in path order, and each item is the true change at its path |
| Workspace.ValidateDiff | packages/sprout-core/src/workspace.rs:217-379 | accepts exactly when the directory, Git, link and size rules hold and the normalized report equals the true difference; then returns that difference; every error names a violation that is really there |
| Workspace.CollectChanges | packages/sprout-core/src/workspace.rs:254-301 | the loop over the merged keys succeeds exactly when every change is allowed, and then yields the difference and its saturated size |
| Workspace.CollectDeclarations | packages/sprout-core/src/workspace.rs:323-347 | the declared map is built exactly when every path normalizes, none is Git metadata, digests fit their kind and no path comes twice |
| Workspace.CheckDeclaration | packages/sprout-core/src/workspace.rs:382-409 | one declaration is accepted exactly when it names a file outside `.git` and its digests fit its kind |
| Workspace.CheckDirectories | packages/sprout-core/src/workspace.rs:223-253 | no directory is removed or changes its mode, and new ones have safe modes; both directions |
| Workspace.MapsDecide | packages/sprout-core/src/workspace.rs:348-378 | comparing the two maps decides whether the report, in any order and without duplicates, is the true difference |
| Workspace.PatchGivesAfter | packages/sprout-core/src/workspace.rs:254-301 | patching the digests before with the returned changes gives the digests after, for all snapshots |
| Workspace.ExactReportIsAccepted | packages/sprout-core/src/workspace.rs:323-379 | a report that lists the true difference is accepted whenever the rules hold |
| Workspace.TrueClaimsAreCanonical | packages/sprout-core/src/workspace.rs:382-409 | a report that matches the truth passes the digest syntax check, so that check excludes no truthful report |
| Workspace.DigestIsCanonicalIff | packages/sprout-core/src/digest.rs:38-58 | a digest text is read if and only if it is `sha256:` and 64 characters of `0123456789abcdef` |
| Workspace.SafeModeMeans | packages/sprout-core/src/workspace.rs:244-252 | the modes refused for a new directory are those with a set-user, set-group, sticky, group-write or other-write bit |
| Paths.NormalizeIsCanonical | packages/sprout-core/src/workspace.rs:411-438 | normalization yields canonical paths, and its fixed points are exactly those |
| Snapshots.Capture | packages/sprout-core/src/workspace.rs:90-195 | a snapshot succeeds exactly within the file, byte and entry limits, and then records every entry and directory of the tree |
| Snapshots.SameSnapshotIff | packages/sprout-core/src/workspace.rs:90-195 | for a digest that tells apart the contents that occur: two trees have equal snapshots if and only if every path holds the same kind, content, executable bit and number of names, and directories have the same modes |
| Snapshots.SameEntryIff | packages/sprout-core/src/workspace.rs:166-195 | the same for the entry at one path |
| FileTree.Tree.RemoveFile | packages/sprout-core/src/plugin.rs:427-427 | succeeds exactly where the path leads to a file or link, and removes only that; the tree stays a tree |
| FileTree.WalkLands | packages/sprout-core/src/plugin.rs:419-451 | resolving a path, links and spellings included, ends at an entry or in a directory under a name nothing there has |
| FileTree.LookupExact | packages/sprout-core/src/plugin.rs:419-451 | a path whose directories are there, with no other spelling in use, is found exactly as written |
| FileTree.LookupKeepsName | packages/sprout-core/src/plugin.rs:419-451 | where no link is on the way, what a path finds is a spelling of it |
| FileTree.DirsExact | packages/sprout-core/src/plugin.rs:428-432 | where no other spelling is in use and no file or link is in the way, making directories succeeds and adds exactly the missing ones |
| FileTree.DirsBlocked | packages/sprout-core/src/plugin.rs:428-432 | a file on the way makes it fail, whatever the spelling of the rest |
| FileTree.PlacedExact | packages/sprout-core/src/plugin.rs:440-444 | where the directories are there and no other spelling is in use, a copy onto a file or a free name succeeds and changes only that entry |
| FileTree.Tree.CreateDirAll | packages/sprout-core/src/plugin.rs:428-432 | tries the directory, then its parents, following links and spellings; leaves what the directory function says, and after a failure the parents it made; the tree stays a tree |
| FileTree.Tree.Place | packages/sprout-core/src/plugin.rs:440-444 | writes a file where the path leads, if that is a file or a free name in a directory; the tree stays a tree |
| FileTree.Tree.Make | packages/sprout-core/src/package.rs:505-513 | adds an entry under a free name only; the tree stays a tree |
| Spellings.LookupFinds | packages/sprout-core/src/plugin.rs:419-451 | without links on the way, a path is found exactly when each of its directories is there under some spelling, and then leads to the one entry of its folded name or to a free name |
| Spellings.DirsFinds | packages/sprout-core/src/plugin.rs:428-432 | without links on the way, directories can be made exactly when no file stands on the way under any spelling; nothing else changes |
| Snapshots.CopyWorkspace | packages/sprout-core/src/windows_isolation.rs:414-455 | staging copies exactly the entries outside every `.git`, or refuses links |
| Snapshots.VisibleIsTree | packages/sprout-core/src/windows_isolation.rs:414-455 | what is staged is again a tree |
| Replay.ReplayWindowsChanges | packages/sprout-core/src/plugin.rs:419-451 | the loop leaves the tree of the replay function and reports its failure |
| Replay.PlanSucceeds | packages/sprout-core/src/plugin.rs:419-451 | replaying a valid plan in path order never meets a failing operation, and leaves exactly the planned tree after every prefix |
| Replay.WayIsClear | packages/sprout-core/src/plugin.rs:419-451 | a file in the way of a later creation is already deleted when its turn comes |
| Replay.WriteIsClear | packages/sprout-core/src/plugin.rs:419-451 | no other spelling of a written path is left when its turn comes |
| Obstacles.StandingAfter | packages/sprout-core/src/plugin.rs:419-451 | whatever the file system and the plan: while the replay succeeds, every directory and every file or link that no change names keeps standing, and no link is new |
| Obstacles.NameIsLost | packages/sprout-core/src/plugin.rs:419-451 | a path written while a file of another spelling stood is not in the tree under its own name at any later point of the replay |
| Commit.AcceptedIsPlan | packages/sprout-core/src/plugin.rs:394-403 | an accepted difference without clash or respelling is a valid plan for the real tree |
| Commit.CommitSucceeds | packages/sprout-core/src/plugin.rs:394-416 | then the replay cannot fail and the second validation accepts the same list |
| Commit.ClashIsCaught | packages/sprout-core/src/plugin.rs:394-416 | with a clash the replay or the second validation fails |
| Commit.SpellingIsCaught | packages/sprout-core/src/plugin.rs:394-416 | with a spelling that is not freed in time the replay or the second validation fails |
| Commit.ReplayOutcome | packages/sprout-core/src/plugin.rs:394-416 | for every accepted report: replay and second validation yield the validated list if and only if nothing clashes and every spelling is freed |
| Commit.NoNestedGitNoClash | packages/sprout-core/src/plugin.rs:394-416 | a workspace whose only `.git` is at the root never clashes |
| Commit.CommittedFiles | packages/sprout-core/src/plugin.rs:394-416 | after a commit that went through, every visible path has the plugin's snapshot entry, changed files are the staged ones byte by byte, and everything that was inside any `.git` is untouched |
| Commit.CommittedIsPlugins | packages/sprout-core/src/plugin.rs:394-416 | then, for a digest that tells those contents apart, every visible path holds exactly what the plugin's result holds there: kind, bytes and executable bit |
| Commit.ChangesDescribeFiles | packages/sprout-core/src/workspace.rs:254-301 | the list names a path if and only if the plugin's file there differs from the one it was given; each item has its kind by which of the two exist, their digests, and the size of the new bytes |
| Commit.CommitWindows | packages/sprout-core/src/plugin.rs:388-416 | nothing is touched unless all checks pass; afterwards the tree is the replay's, and success is exactly the final capture and the second validation |
| Metadata.CreateTouchesGitIff | packages/sprout-core/src/plugin.rs:419-451 | one creation changes the root metadata exactly when its path respells `.git`, no file is on the way, and neither a directory nor the same file is in the place |
| Metadata.ReplaySparesGitIff | packages/sprout-core/src/plugin.rs:419-451 | through all prefixes of a replay, failed or not, the root metadata stays as it was exactly when no change that is reached does so |
| Metadata.MetadataIsSparedIff | packages/sprout-core/src/plugin.rs:394-416 | the same for every run whose report was accepted, as long as no link is in the way of a write |
| Metadata.UnspelledMetadataIsSpared | packages/sprout-core/src/plugin.rs:394-416 | without nested repositories, and with no written path that respells `.git`, the root metadata is untouched after every prefix of the replay, whatever links it holds |
| Transaction.TotalUnion | packages/sprout-core/src/workspace.rs:90-195 | what the limits count of two disjoint sets of entries adds up |
| Transaction.FinalFits | packages/sprout-core/src/plugin.rs:404-405 | the tree after the replay is within the limits if and only if the plugin's result and the unseen metadata are together |
| Transaction.TransactionOutcome | packages/sprout-core/src/plugin.rs:394-416 | for every admitted run: replay, final limits and second validation all succeed if and only if nothing clashes, spellings are freed and the limits hold jointly; then the list and the tree are the plugin's |
| Transaction.CommittedFilesArePlugins | packages/sprout-core/src/plugin.rs:394-416 | the same for any admitted run that is committed: no edit of a visible file is lost |
| Transaction.ApplyWindows | packages/sprout-core/src/plugin.rs:358-416 | staging, all captures, both validations and the replay in one run: success if and only if the run is admitted and committable; then every visible file has the bytes and permission of the plugin's file; an unadmitted run touches nothing, and a failed one leaves what the replay got to |
| Transaction.RunSparesMetadata | packages/sprout-core/src/plugin.rs:358-416 | what a run leaves behind, committed, refused or failed midway, has the root metadata of before under that condition |
| Transaction.HonestPluginCommits | packages/sprout-core/src/plugin.rs:394-416 | without nested repositories and respelled names, a plugin that keeps the rules and reports exactly what it did is always admitted, and only the joint limits decide |
| Refusals.NestedGitIsRefused | packages/sprout-core/src/windows_isolation.rs:414-455 | a concrete workspace, plugin result and truthful report that pass the first validation and fail the commit because of a nested `.git` |
| Refusals.HiddenMetadataCounts | packages/sprout-core/src/plugin.rs:404-405 | a concrete admitted run whose replay and second validation succeed and whose final tree exceeds the limits |
| Refusals.RespellingLosesFile | packages/sprout-core/src/plugin.rs:419-451 | where case does not count, a truthful rename from `readme` to `README` passes the first validation, fails the commit and leaves neither file |
| Refusals.MetadataIsOverwritten | packages/sprout-core/src/workspace.rs:270-275 | where case does not count, a truthful plugin that makes `.GIT` beside a file `.git` passes the first validation, and the commit fails with `.git` overwritten |
| SseFraming.FrameBoundary | packages/cli/src/core_backend.rs:639-653 | the boundary is the first place a blank line starts, and None means there is none |
| SseFraming.BoundaryIsBlankLine | packages/cli/src/core_backend.rs:639-653 | in the text's own characters: the boundary is the first LF LF or CRLF CRLF, with its length |
| SseFraming.BoundaryIsStable | packages/cli/src/core_backend.rs:639-653 | a boundary found in a prefix is the first boundary of every extension |
| SseFraming.SplitIsIncremental | packages/cli/src/core_backend.rs:499-513 | framing a concatenation is framing the first part and then its rest with the second |
| SseFraming.FeedingAgrees | packages/cli/src/core_backend.rs:483-513 | a reader that did not give up has delivered exactly the frames of all it was fed, each within the limit |
| SseFraming.DeliveredIsPrefix | packages/cli/src/core_backend.rs:483-513 | under every chunking what is delivered is a prefix of the stream's frames |
| SseFraming.OversizeIsRefused | packages/cli/src/core_backend.rs:499-582 | a frame over 512 KiB is refused under every chunking, after exactly the earlier frames |
| SseFraming.RoomyIsAccepted | packages/cli/src/core_backend.rs:499-582 | frames that leave room for their delimiter are accepted and delivered whole under every chunking |
| SseFraming.ChunkingIsIrrelevantIff | packages/cli/src/core_backend.rs:499-582 | all chunkings of a stream are accepted if and only if every frame with all but one byte of its delimiter, and the tail, fit the limit |
| SseStandard.FramesAreStandardIff | packages/cli/src/core_backend.rs:639-653 | for every stream: the frames are the blocks of section 9.2.6 of the HTML standard if and only if each blank line the standard sees is LF LF or CRLF CRLF |
| SseStandard.MixedEndingsDiffer | packages/cli/src/core_backend.rs:639-653 | an instance with mixed endings: two blocks for the standard, one frame |
| SseFields.ParseSseFrame | packages/cli/src/core_backend.rs:605-637 | the loop over lines computes the parsed event of the specification function, UTF-8 errors included |
| SseFields.DecimalRoundTrip | packages/cli/src/core_backend.rs:624-624 | decimal text of a number reads back as it |
| SseFields.ParseInvertsRender | packages/cli/src/core_backend.rs:605-637 | a rendered event parses back to itself with either line ending |
| SseFields.SplitInvertsRender | packages/cli/src/core_backend.rs:499-513 | a rendered stream splits into exactly its rendered frames |
| SseFields.EventsSurviveAnyChunking | packages/cli/src/core_backend.rs:483-637 | any list of events, in any chunking, is framed and parses to exactly those events |
| SseLines.WrittenFrameParses | packages/cli/src/core_backend.rs:605-637 | every frame of fields written with or without the space after the colon, of bare names, comments and unknown fields, in any order, with either line ending, parses to what the lines mean |
| SseLines.NumbersRead | packages/cli/src/core_backend.rs:624-624 | a retry time is read from digits with any zeros and a plus sign in front, up to 64 bits |
| SseLines.OthersAreNoNumbers | packages/cli/src/core_backend.rs:624-624 | nothing else is read as a retry time |
| Utf8.ValidIff | packages/cli/src/core_backend.rs:605-606 | a frame is accepted as UTF-8 if and only if it encodes some text |
| LogFollow.CursorShape | packages/cli/src/core_backend.rs:655-678 | the cursor check accepts exactly version, shard, time and digest fields of the documented lengths and alphabets |
| LogDelivery.CursorReadsIff | packages/cli/src/core_backend.rs:655-678 | the same without the checker's vocabulary: a cursor is accepted if and only if it is the four fields joined by their separators |
| LogFollow.DrainFrames | packages/cli/src/core_backend.rs:499-576 | the inner loop handles exactly the complete frames of the buffer and keeps the rest |
| LogFollow.ConsumeSse | packages/cli/src/core_backend.rs:470-585 | the chunk loop computes the specified session, outcome or error for every chunking and ending |
| LogFollow.ReadChunksGrows | packages/cli/src/core_backend.rs:470-585 | however a body is cut and ends, the consumer takes a prefix of its records, all of them if nothing failed, and the checkpoint names the last |
| LogFollow.ReaderIsFramer | packages/cli/src/core_backend.rs:470-585 | for every decoder and consumer, the chunk loop handles exactly the frames the framer delivers, in order, keeps the same tail, and reports an oversize frame exactly when the framer gives up and nothing failed before |
| LogFollow.EventsReachTheConsumer | packages/cli/src/core_backend.rs:470-637 | the round trip of the whole consumer: any list of events, rendered with either line ending and cut into any chunks, is handled as if the events themselves were handed over |
| LogFollow.OversizeEndsTheConnection | packages/cli/src/core_backend.rs:499-582 | a frame over 512 KiB ends the connection with that error, after exactly the frames before it were handled |
| LogFollow.ConsumerIgnoresChunking | packages/cli/src/core_backend.rs:470-585 | two chunkings of a stream whose frames and tail leave room give the same session, outcome or error |
| LogDelivery.RecordsAreTaken | packages/cli/src/core_backend.rs:470-537 | completeness: any list of records, each sent as a log event with its cursor as id and data that decodes to it, in any chunking that leaves room, is taken by a willing consumer entirely and in order, and the last cursor is the checkpoint |
| LogDelivery.ReadyIsObeyed | packages/cli/src/core_backend.rs:538-546 | after any records, a ready event sets the delay it names within its bounds and asks for nothing |
| LogDelivery.ReconnectIsObeyed | packages/cli/src/core_backend.rs:547-555 | after any records, a reconnect event sets the request and the delay it names within its bounds, one second if it names none |
| LogDelivery.ErrorIsObeyed | packages/cli/src/core_backend.rs:556-570 | after any records, an error event ends the connection and is retried exactly if it says so |
| LogDelivery.FaultsAreRefused | packages/cli/src/core_backend.rs:515-574 | after any records, an event with a missing, invalid or other id, an undecodable record or the wrong version or kind ends the connection with that error, never retried |
| LogDelivery.OthersAreIgnored | packages/cli/src/core_backend.rs:571-574 | events of other names change nothing |
| LogDelivery.RefusedIsNotTaken | packages/cli/src/core_backend.rs:533-537 | a record the consumer refuses is not taken, and its verdict decides about a retry |
| LogFollow.FollowLogs | packages/cli/src/core_backend.rs:323-448 | the reconnect loop computes the specified result for every script of network behaviour |
| LogFollow.AttemptKeepsAligned | packages/cli/src/core_backend.rs:350-447 | one attempt, of whatever kind, keeps the taken records a prefix of the log and only extends them |
| LogFollow.FollowIsGapFree | packages/cli/src/core_backend.rs:323-448 | over all attempts the accepted records are a gap-free, duplicate-free prefix of the server's log and the cursor names the last one |
| LogFollow.RenderingIsHonest | packages/cli/src/core_backend.rs:515-537 | a server that renders the next records of its log, cut off anywhere, meets the assumption of the previous row |
| LogFollow.RetriesAreBounded | packages/cli/src/core_backend.rs:324-447 | at most 8 attempts between reconnect checkpoints, so finitely many in all for finitely many checkpoints; every delay is between 100 ms and 5 s |
| LogDelivery.FollowsExactlyWhile | packages/cli/src/core_backend.rs:324-447 | for every script the client goes on if and only if no attempt fails for good and no eight in a row pass without a checkpoint of the server |
| LogDelivery.SilenceBacksOff | packages/cli/src/core_backend.rs:350-447 | without answers the delays are 250, 500, 1000, 2000, 4000 and then 5000 ms, and the eighth attempt is the last |
| LogDelivery.FollowDelivers | packages/cli/src/core_backend.rs:323-448 | wherever the client stands, a connection that carries the rest of the log completes it, however it is cut and ends |
| SignerState.EffectKeepsInv | services/android-signer/src/state.rs:92-176 | every effect the signer may perform keeps disk, uploads and completions consistent |
| SignerState.EveryHistoryIsSafe | services/android-signer/src/lib.rs:74-316 | any number of starts, each cut off by a crash after any effect, keeps the invariant |
| SignerState.JobHistoryIsConsistent | services/android-signer/src/lib.rs:114-316 | in every history: `sign.json` only with the APK it describes; one payload per job ever uploaded; every completion agrees with it in digest, size, certificate, package, version and the version name of the manifest that was signed; all completions of a job agree |
| SignerState.ReportsAgree | services/android-signer/src/state.rs:58-77 | while a job is open, two reports backed by its checkpoint agree on everything that identifies the upload, the version name included |
| SignerState.ResumesOneClaim | services/android-signer/src/state.rs:37-56 | a signed checkpoint made for one claim is resumed for another exactly when all ten immutable fields agree |
| SignerState.ResumesOneProvision | services/android-signer/src/lib.rs:114-135 | the same for a key checkpoint |
| Signer.Process.CrashIsSafe | services/android-signer/src/lib.rs:74-103 | what any crash leaves behind is a world a new process can start from |
| Signer.Process.SaveSign | services/android-signer/src/state.rs:112-127 | the APK is in place before the checkpoint that describes it, whichever effect fails; on a working disk both are saved |
| Signer.Process.SaveProvision | services/android-signer/src/state.rs:96-103 | a key checkpoint is written only where there is none |
| Signer.Process.MarkComplete | services/android-signer/src/state.rs:128-146 | a completed job's files go, the checkpoint before the APK, and success means the directory is gone; on a disk that fails no removal the cleanup succeeds if and only if no stray temporary file is left |
| Signer.Process.ProvisionSigningKey | services/android-signer/src/lib.rs:114-166 | resumed or fresh, a successful provision answers its claim and uploads exactly the identity on disk; a saved identity is never replaced; on a working disk it succeeds if and only if the identity is there or can be made and the upload is stored |
| Signer.Process.SignFresh | services/android-signer/src/lib.rs:228-286 | succeeds if and only if the object, digest, manifest, key and tools agree with the claim; then the checkpoint describes the APK, matches the claim, and carries package, version code and version name of the downloaded APK's own manifest |
| Signer.Process.SignOneRelease | services/android-signer/src/lib.rs:206-316 | resumed or fresh, a successful signing carries the claim's package, version and certificate and the version name of the manifest that was signed, and uploads exactly the APK on disk; a saved APK is never replaced; on a working disk it succeeds if and only if type, version order, upload and either a matching checkpoint or a fresh signature are good |
| Signer.Process.Execute | services/android-signer/src/lib.rs:168-379 | all four job kinds answer every claimed field of the job, the catalogue client's with its fixed identity; the exact condition for success in both directions |
| Signer.Process.RunOnce | services/android-signer/src/lib.rs:74-103 | one poll performs only allowed effects, touches one job's directory, adds at most one upload and one completion of that job, and leaves no temporary file; when disk and control plane work and no stray temporary file is there, it reports completion if and only if the job can be done |
| Signer.Process.Serve | services/android-signer/src/lib.rs:97-103 | the service loop: any number of polls until one fails, all allowed, and no temporary file is left unless the service is killed |
| Signer.Lives | services/android-signer/src/lib.rs:74-103 | the service started again and again and killed after any of its effects makes a history of the kind the consistency results are about, and so a consistent one |
| SignerState.OneMoreRun | services/android-signer/src/lib.rs:97-103 | what a process does from where a history ended, cut off anywhere, extends that history |
| SignerState.KilledWhileWriting | services/android-signer/src/state.rs:163-176 | a concrete history: killed while writing a checkpoint, then run to completion, leaves a completed job with a stray temporary file in the way of its cleanup |
| Seccomp.RunRules | packages/sprout-core/src/isolation.rs:361-376 | from rule i on the machine denies exactly what the rest of the list denies |
| Seccomp.ProgramIsCorrect | packages/sprout-core/src/isolation.rs:282-392 | for every deny-list, architecture and number the program halts with the specified verdict |
| Seccomp.DecodeEncode | packages/sprout-core/src/isolation.rs:384-391 | decoding the 8-byte encoding recovers the instructions |
| Seccomp.FilterIsCorrect | packages/sprout-core/src/isolation.rs:282-392 | running the emitted bytes yields the specified verdict |
| Seccomp.PluginSeccompProgram | packages/sprout-core/src/isolation.rs:282-392 | the two loops emit bytes that mean the verdict on every input |
| Seccomp.EvaluateClassicBpf | packages/sprout-core/src/isolation.rs:652-695 | the interpreter's loop is the step function iterated, with every panic as None |
| Seccomp.EnsureStaticElf | packages/sprout-core/src/isolation.rs:395-486 | accepts exactly files whose program headers can all be read and include no interpreter |
| Seccomp.WrittenElfIsStaticIff | packages/sprout-core/src/isolation.rs:395-486 | every ELF file written field by field, 32-bit or 64-bit, with any gap before its table and any content after it, is accepted if and only if no program header has type 3 |
| DeployLock.StepKeepsInv | apps/dbmigrator/src/deploy.ts:73-113 | every step of any replica keeps the lock, count and table invariant |
| DeployLock.DeployIsExclusive | apps/dbmigrator/src/deploy.ts:63-114 | in every interleaving one run at a time is between lock and unlock, no idle session holds the lock, and what runs report partitions what was added to the table |
| DeployLock.WaitedMeansGrown | apps/dbmigrator/src/deploy.ts:76-83 | `waited` is true exactly when the table grew after the first read |
| DeployLock.WaitedAppliesNothing | apps/dbmigrator/src/deploy.ts:80-101 | with the same files everywhere, a run that waited applies nothing |
| DeployLock.MigrationKeepsOrder | apps/dbmigrator/src/deploy.ts:85-101 | a migration that goes through reports exactly its files that were not in the table, in file order, all of them when none was; it appends them to the table in that order, and then all its files are in it |
| DeployLock.DeployKeepsOrder | apps/dbmigrator/src/deploy.ts:63-114 | in every interleaving every run that has succeeded still has its report in file order, in that order in the table, and all its files in the table |
| DeployLock.AloneSucceeds | apps/dbmigrator/src/deploy.ts:63-114 | from every initial state a replica left alone succeeds: lock, read, migrate, unlock, with exactly its missing files applied |
| DeployRun.Cluster.ReadApplied | apps/dbmigrator/src/deploy.ts:148-159 | probing before counting never counts a missing table; a throw inside the `try` still reaches the `finally` |
| DeployRun.Cluster.Deploy | apps/dbmigrator/src/deploy.ts:63-114 | one call takes only steps of the protocol, always returns its connection, and reports only what it alone added, in the order of its files, all of which are then in the table |
| DeployRun.OneMoreStep | apps/dbmigrator/src/deploy.ts:73-113 | extending a run by an enabled step is a run that ends where the step leads |
| ApkZip.FindRecord | services/android-signer/src/apk.rs:145-151 | the backward scan returns the last self-consistent end record of the tail, or there is none |
| ApkZip.TailSuffices | services/android-signer/src/apk.rs:141-144 | the last 65557 bytes hold every self-consistent record of the file |
| ApkZip.DeclaredZipEntries | services/android-signer/src/apk.rs:132-197 | returns what the last record says, through the ZIP64 locator when its count is 0xFFFF, or the error it deserves |
| ApkZip.WrittenRecord | services/android-signer/src/apk.rs:152-196 | a written archive's end record is one and says the written count, ZIP64 included |
| ApkZip.LastIsDeclared | services/android-signer/src/apk.rs:132-151 | the answer for a file is what its last self-consistent end record says |
| ApkZip.RecordSaysIff | services/android-signer/src/apk.rs:152-196 | a record is believed with a count if and only if it is a one-disk archive that says so twice, or defers to a ZIP64 record that does, byte for byte at its place |
| ApkZip.ReaderAnswersWriter | services/android-signer/src/apk.rs:132-197 | for every written archive: the reader answers the written count, through ZIP64 if needed, when nothing inside the end record and its comment is a self-consistent record; otherwise what the last such record says |
| ApkZip.PlainCommentIsSafe | services/android-signer/src/apk.rs:145-151 | an archive whose comment holds no end signature reads back as written |
| ApkZip.EmbeddedRecordIsRead | services/android-signer/src/apk.rs:145-151 | a comment that ends in an end record makes the reader answer that record's count, whatever was written |
| ApkZip.ContainsApkSigningBlock | services/android-signer/src/apk.rs:28-64 | answers by the last record's directory offset, false for files too short, an error without a record |
| ApkZip.SigningBlockIsSeen | services/android-signer/src/apk.rs:52-63 | in a written archive, whatever its directory offset, a block is reported exactly when `APK Sig Block 42` fills the 16 bytes before the central directory and its size field fits before it |
| ApkZip.CollapseCounts | services/android-signer/src/apk.rs:84-86 | indexing entries by name keeps their number exactly when the names are pairwise distinct |
| ApkZip.ValidateZip | services/android-signer/src/apk.rs:70-126 | accepts exactly archives within the limit whose declared count is the collapsed count, with no forbidden entry and a manifest |
| ApkZip.AcceptanceMeans | services/android-signer/src/apk.rs:70-126 | what acceptance says in the format's words: count, safe names, no links, no nested `.apk` in any case, a manifest, and no signing files where those are refused |
| ApkZip.NothingElseIsRefused | services/android-signer/src/apk.rs:70-126 | the converse |
| ApkZip.UpperReads | services/android-signer/src/apk.rs:92-126 | the case folding of entry names changes the 26 letters and nothing else |
| ApkZip.AcceptedNamesAreDistinctIff | services/android-signer/src/apk.rs:80-86 | in an accepted archive names are pairwise distinct if and only if the end record tells their number truthfully; otherwise it declares fewer |
| Scan.OverlapSuffices | packages/sprout-core/src/package.rs:745-751 | an overlap of one byte less than the needle sees every match that new data completes |
| Scan.ContainsApkSigningBlock | packages/sprout-core/src/package.rs:730-754 | true exactly when the magic occurs in the file, for every way the reads split it |
| PgFrames.FramesCover | services/pg-proxy/src/backend.rs:273-285 | reading messages loses nothing: they and the incomplete rest are the input |
| PgFrames.FramesInvert | services/pg-proxy/src/backend.rs:320-324 | messages written one after another read back as exactly those |
| PgFrames.MessageIsFrame | services/pg-proxy/src/backend.rs:472-480 | what the proxy writes is one message with that tag and body while its length fits |
| PgFrames.AnnouncedIs | services/pg-proxy/src/backend.rs:273-285 | for every 32-bit length: what a message announces, and nothing for lengths up to four, negative ones included |
| PgStartup.StartupParsesBackIff | services/pg-proxy/src/backend.rs:229-254 | the packet parses back to user, database and application name if and only if neither value holds a zero byte and the size limit is kept |
| PgStartup.ParametersParseBack | services/pg-proxy/src/protocol.rs:127-154 | the parameter list parses back to its values |
| PgStartup.PacketHolds | services/pg-proxy/src/backend.rs:229-254 | the packet is its own length, version 3.0 and the three parameters under their names |
| PgStartup.RequestsParseBack | services/pg-proxy/src/cancel.rs:135-145 | a cancellation that is written reads back with its key, and a TLS request as that |
| PgStartup.ParsedNamesAreNulFree | services/pg-proxy/src/protocol.rs:127-154 | whatever the bytes, parsed names hold no zero byte |
| PgBackend.Connection.ReadFrame | services/pg-proxy/src/backend.rs:273-285 | consumes exactly the next message, or the input holds none |
| PgBackend.Connection.RunScram | services/pg-proxy/src/backend.rs:346-384 | the SASL exchange reads two messages and succeeds only with the server's proof |
| PgBackend.Connection.CompleteAuthentication | services/pg-proxy/src/backend.rs:264-339 | the byte loop computes what the message-level exchange says: handshake bytes, key, bytes sent, error |
| PgBackend.Connection.SetRole | services/pg-proxy/src/backend.rs:517-549 | sends exactly one message of tag Q with the text `SET ROLE `, the role and a zero byte, and answers by the first ReadyForQuery or ErrorResponse |
| PgBackend.Connection.Connect | services/pg-proxy/src/backend.rs:203-227 | the whole connection; the last message sent is that query for the role, and the unread input is exactly what follows the role's ReadyForQuery |
| PgBackend.AuthenticationShape | services/pg-proxy/src/backend.rs:264-339 | success ends at the first ReadyForQuery before any ErrorResponse, with exactly the ParameterStatus messages in order and the last key |
| PgBackend.RoleReplyMeans | services/pg-proxy/src/backend.rs:527-548 | the role query succeeds if and only if a ReadyForQuery precedes every ErrorResponse |
| PgBackend.EverySaslExchangeIsMutual | services/pg-proxy/src/backend.rs:346-384 | no session comes out of a SASL exchange in which the server did not prove itself |
| PgBackend.ConnectIsSafe | services/pg-proxy/src/backend.rs:203-227 | success means both phases reached ReadyForQuery without ErrorResponse; the handshake re-parses to exactly the authentication-phase ParameterStatus messages |
| PgBackend.AuthenticatesIff | services/pg-proxy/src/backend.rs:264-384 | for every message sequence: authentication succeeds if and only if a ReadyForQuery precedes every ErrorResponse and each authentication message before it can be answered where it stands, a SASL request by offering SCRAM, the two server messages that follow it, and a good proof |
| PgBackend.ConnectSucceedsIff | services/pg-proxy/src/backend.rs:203-227 | for every input: connect succeeds if and only if authentication does and SET ROLE reaches ReadyForQuery before an error |
| PgBackend.ConnectSends | services/pg-proxy/src/backend.rs:203-227 | what a successful connect has sent parses back: the startup packet, then one password message per request with what that request asks for, in order, then the query for the role |
| PgBackend.RefusalIsReported | services/pg-proxy/src/backend.rs:552-561 | an ErrorResponse that comes first ends the authentication with its own message |
| PgBackend.BackendKeyParses | services/pg-proxy/src/cancel.rs:115-123 | the cancellation pair the server sent is the one that is kept |
| PgBackend.ShortKeyIsNone | services/pg-proxy/src/cancel.rs:115-123 | a payload is refused exactly when it is shorter than the pair |
| PgBackend.Md5AnswersExpectedIff | services/pg-proxy/src/backend.rs:288-299 | the answer to an MD5 request leaves out the user name: it is the one PostgreSQL documents if and only if that name is empty |
| PgBackend.NothingSentUnasked | services/pg-proxy/src/backend.rs:288-299 | no password message is sent unless an authentication request asked for one |
| Paths.AncestorsUnder | packages/sprout-core/src/package.rs:485-485 | directories on the way to a mapped entry come from the prefix or from the source tree |
| StaticTrees.FindCollision | packages/sprout-core/src/package.rs:536-554 | the first pass reports a collision if and only if some file or link of the mapping would land on an entry |
| StaticTrees.CopyTree | packages/sprout-core/src/package.rs:468-533 | the loop computes the copying function, links and errors included |
| StaticTrees.CopyStaticTree | packages/sprout-core/src/package.rs:536-556 | the same for the two passes together |
| StaticTrees.PackageStaticPaths | packages/sprout-core/src/package.rs:371-403 | the loop over the requests computes the packaging function: the staging tree or the first error |
| StaticCopy.CopyDecides | packages/sprout-core/src/package.rs:468-556 | one mapping, where nothing diverts it: copied if and only if it fits and its links stay; then every entry is in place and nothing before it changed |
| StaticUnion.StagingDecides | packages/sprout-core/src/package.rs:371-403 | where no link or spelling diverts, staging succeeds if and only if the mappings are pairwise disjoint and their links stay, and then yields the union |
| StaticUnion.StageableIsStaged | packages/sprout-core/src/package.rs:371-403 | usable, pairwise disjoint mappings with links that stay and names that differ in more than spelling are staged as their disjoint union |
| StaticUnion.UnionExactlyIfStageable | packages/sprout-core/src/package.rs:371-403 | for every request: the call succeeds with the disjoint union if and only if that condition holds |
| StaticUnion.DivertedOnlyByLinksOrSpelling | packages/sprout-core/src/package.rs:371-403 | a call that succeeds although the condition fails has a staged link where a later mapping needs a directory, or two spellings of a name |
| StaticUnion.StagedLinksAreRelative | packages/sprout-core/src/package.rs:685-708 | whatever call succeeds, diverted or not: every link of every mapping was relative and led, on the disk, to something in its own source tree |
| StaticUnion.EveryFileHasOneOrigin | packages/sprout-core/src/package.rs:371-403 | every file of the union comes from exactly one entry of exactly one mapping, unchanged |
| StagedLinks.LinksLeadToCopies | packages/sprout-core/src/package.rs:501-514 | in the union a link that finds its way inside its own source tree leads to the copy of what it led to |
| StagedLinks.WayBackIsLost | packages/sprout-core/src/package.rs:685-708 | a concrete link that leaves its tree and comes back by name: it passes the check, is staged, and leads nowhere |
| Diversion.FileIsDiverted | packages/sprout-core/src/package.rs:501-556 | a concrete request that succeeds with a file where no mapping puts it, through a link staged earlier |
| NameDetour.NameIsDiverted | packages/sprout-core/src/package.rs:371-403 | where case does not count, a concrete request with prefixes `a` and `A` that succeeds with a file where no mapping puts it, and no link involved |
| ShellQuote.QuotedIsOneWord | packages/sprout-core/src/package.rs:619-621 | a quoted value is one shell word, the value itself, whatever its characters |
| ShellQuote.StartScriptRunsEntry | packages/sprout-core/src/package.rs:318-323 | the start script's command line is `exec node --` with the entry path as its one argument |
| Descriptors.Process.MarkAndClear | packages/sprout-core/src/plugin.rs:468-479 | the system call path succeeds exactly when the inherited descriptors are open, and leaves the wanted flags |
| Descriptors.Process.Scan | packages/sprout-core/src/plugin.rs:486-503 | the scan path does the same below the limit, and refuses infinite or oversized limits |
| Descriptors.Process.PreExec | packages/sprout-core/src/plugin.rs:465-504 | which path is taken, and what each leaves or reports |
| Descriptors.PathsAgreeIff | packages/sprout-core/src/plugin.rs:465-504 | the two paths leave the same table if and only if no open descriptor outside the scanned range has a flag the system call path would change |
| Descriptors.PathsAgreeBelowLimit | packages/sprout-core/src/plugin.rs:486-503 | they agree when open descriptors lie below the limit and none below 3 is inherited |
| Descriptors.OnlyInheritedSurvive | packages/sprout-core/src/plugin.rs:462-463 | after exec exactly the inherited descriptors remain, besides those below 3 that were not close-on-exec |
| Descriptors.LowestFlag | packages/sprout-core/src/plugin.rs:465-504 | close-on-exec is the lowest flag |
| BoundedRead.ReadBounded | packages/sprout-core/src/plugin.rs:584-609 | keeps exactly the first bytes up to the limit, drains the rest, reports an excess once, for every way reads split the stream |
| Polling.Wait | packages/sprout-core/src/deploy.rs:443-491 | stops at the first answer that is final, unreadable or late, successful exactly when that answer is `ready`, having emitted the fetched states with adjacent repeats removed; with a positive interval after at most ceil(timeout / interval) + 1 requests |
| Polling.VerdictMeans | packages/sprout-core/src/deploy.rs:443-491 | the verdict in the control plane's words: which status ends how, with which reason |
| Polling.SpellingsAreRead | packages/sprout-core/src/deploy.rs:443-459 | a status text is read as a state if and only if it is that state's spelling |
| Polling.WaitEnds | packages/sprout-core/src/deploy.rs:476-489 | the wait goes on at most ceil(timeout / interval) times when sleeps are not short |
| Polling.PositiveIntervalEnds | packages/sprout-core/src/deploy.rs:476-489 | with a positive interval the wait ends whatever is answered |
| Polling.BoundIsReached | packages/sprout-core/src/deploy.rs:476-489 | with instant answers and exact sleeps that number is reached |
| Polling.SqueezeHasNoRepeats | packages/sprout-core/src/deploy.rs:453-459 | the emitted list has no adjacent repeats, and a list without them is emitted as it is |
| Polling.SqueezeKeepsStates | packages/sprout-core/src/deploy.rs:453-459 | every fetched state is emitted and nothing else |
| Uuid.Stamp | apps/dbmigrator/src/lib/uuid.ts:14-21 | the in-place assignments give the timestamp in big-endian order, then the random bytes around version and variant |
| Uuid.MasksAreArithmetic | apps/dbmigrator/src/lib/uuid.ts:20-21 | the two bit masks of the source are the arithmetic the model uses |
| Uuid.FormatParses | apps/dbmigrator/src/lib/uuid.ts:23-30 | the text parses back to its sixteen bytes |
| Uuid.TextDecodes | apps/dbmigrator/src/lib/uuid.ts:10-31 | the text decodes to version 7, the standard variant, the random bits, and the clock modulo 2^48, which is the clock exactly below 2^48 |
| Uuid.EarlierIsSmaller | apps/dbmigrator/src/lib/uuid.ts:10-31 | below 2^48 an earlier clock gives a lexicographically smaller text for all random bytes |

## Left out

- Transaction.ApplyWindows: the plugin's result is an arbitrary tree in the staging directory; nobody else changes the workspace during the run; the source checks that and refuses, and so does `Commit.CommitWindows`. The staging directory is taken to fold names as the workspace's volume does, though it lies in the profile's local application data and can be on another volume. The request limit, the sandbox and the decoding of the plugin's answer come before and are not modelled.
- Metadata.MetadataIsSparedIff: where a link inside the metadata is in the way of a write that respells `.git`, only the safe direction is claimed (`Metadata.UnspelledMetadataIsSpared`); nested metadata after a failed run is not covered.
- StagedLinks.LinksLeadToCopies: one direction; a link that leaves its tree may still come back, by the names of the prefix.
- SseStandard.FramesAreStandardIff: where events end, not what the fields mean; a byte order mark at the start is not treated.
- Transaction.HonestPluginCommits: decided per run; it does not say which plugins stay within the limits.
- Commit.CommittedFiles: compares unchanged files by snapshot entry (size, digest, flags); `Commit.CommittedIsPlugins` compares all of them byte by byte where the digest tells their contents apart, and without that a change the digest does not show is one the program cannot see.
- PgBackend.Md5AnswersExpectedIff: the program computes the MD5 answer with an empty user name (services/pg-proxy/src/backend.rs:288-299), unlike the PostgreSQL documentation; the model follows the program, and the digest is assumed to tell texts apart in that one result.
- LogDelivery.RecordsAreTaken: JSON decoding is a function; that a server's data decodes to its record is part of what it means to send it.
- Workspace.ValidateDiff: the texts listed in a mismatch error are not modelled, only that the report is not the difference.
- Snapshots.Capture: walks in key order where the source walks directory by directory, which only affects which of several errors is reported; names that are not UTF-8 and special files, which the source refuses, are not modelled.
- Paths.NormalizeIsCanonical: the grammar of `/`-separated paths, also on Windows, without drive prefixes and backslashes.
- FileTree.WalkLands: names are sequences of characters, one for each byte, compared after a folding of single characters; normalization forms and reserved names are not modelled. A link that leaves the workspace or the staging directory leads nowhere in the model; links of the source trees are followed over the whole disk.
- Empty directories made by a plugin: the replay copies files, so the results speak of files.
- The Unix template path, which runs the plugin in place, and the refusal of hard links that exist before the run (packages/sprout-core/src/workspace.rs:201-215).
- LogFollow.FollowIsGapFree: assumes the server resumes exactly after the cursor it is given and that cursors of its log are distinct.
- LogFollow.RetriesAreBounded: attempts, not wall-clock time; the per-read time limits are part of the script.
- Signer.Process.RunOnce: one signer host; that the control plane never claims a completed job again is a precondition.
- Signer.Process.MarkComplete: power-loss durability is not modelled; a rename is one step and a crash is a process crash.
- SignerState.JobHistoryIsConsistent: sealing, signing and certificate extraction are arbitrary functions, and digest equality is not taken to mean equal bytes; the payloads themselves are compared.
- Seccomp.FilterIsCorrect: little-endian targets, as the source builds for; the kernel's own filter checks are not modelled.
- DeployLock.DeployIsExclusive: a migration run is all-or-nothing apart from creating its table, and releasing the lock does not fail.
- ApkZip.ValidateZip: the ZIP library is a list of entries it presents, or its refusal; a failure on one entry's header is part of that refusal.
- Scan.ContainsApkSigningBlock: a read error ends the scan with that error in the source and is not modelled.
- PgBackend.Connection.Connect: TLS negotiation and failing writes, which end the connection with an error; SCRAM messages beyond their order; no outcome is claimed for the bytes sent before an error.
- StaticTrees.PackageStaticPaths: the archive written from the staging tree, and special files, which the source refuses.
- ShellQuote.StartScriptRunsEntry: the reader knows one simple command; everything else it refuses.
- Polling.Wait: assumes that the wait ends; a positive interval makes it (`Polling.PositiveIntervalEnds`), with none it is up to the answers and their delays.
- Uuid.Stamp: clocks before 1970.
- OS sandboxes, process control, HTTP and TLS clients, CLI tables, output rendering, the web applications: wide, and without a hard property of their own.
- `resolve_log_project`: it rejects only an immediately repeated cursor, so termination is not claimed.
