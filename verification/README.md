# Trilium for Android: bundle materializer, child supervisor and readiness prober

This project models the decision logic of an Android shell that ships a Node.js server
bundle as read-only assets, installs it into private storage, runs it as a child
process, and shows its web UI once it answers a health check.

- **The bundle materializer** (`NodeService.copyAssetDirectory`, `deleteDirectory`,
  `copyAssetFile`). It works over an abstract filesystem: a tree of files (byte
  sequences) and directories whose entries are listed in a fixed order.
  - The existing target is kept only when both `version.txt` and `copy_complete.flag`
    exist and the trimmed versions agree.
  - Otherwise it is wiped (children first, stopping at the first failure), recreated
    and copied entry by entry. Files go through a 4096-byte chunk loop. The directory's
    own flag is created after its listing loop.
  - The faults the model covers are oracles, keyed by the path relative to the bundle
    root. They are unreadable versions, failing deletes and listings, a failing
    `mkdirs`, per-file stream faults, a throwing `close`, and a throwing `createNewFile`.
- **The reference tree** `Mirror`. It is an independent definition of what a fault-free
  copy builds. The copy is proved to build exactly that tree. Lookup lemmas then place
  every asset file at its own path with its own bytes, and a flag in every directory.
- **The child supervisor** (`setExecutablePermission`, `startNodeProcess`,
  `stopNodeProcess`). It is a state machine over the single `nodeProcess` handle:
  - the existence gate before the spawn;
  - the command line;
  - the child environment, which is the inherited one with exactly three variables
    overridden.
  `chmod`, the spawn and `waitFor` are oracles.
- **The readiness prober** (`MainActivity.startServerCheck`). It is a function of the
  sequence of HTTP outcomes the HEAD requests meet. It produces the final retry count,
  the visible events in order, and how the polling ended.
- **The URL routing** in `shouldOverrideUrlLoading`.

Behaviour of the code worth knowing:

- The completion flag does not certify the copy:
  - `copyAssetFile` swallows its own I/O errors, so a truncated or missing file still
    gets its directory flagged (`FlagDoesNotCertifyCopy`).
  - A failing sub-directory copy deletes only itself, and the parent carries on
    (`SubCopyFailureIsLocal`).
  - A later start then trusts the partial tree.
- No failure is reported to the caller. Every call returns normally, and only the
  statuses of the model tell the cases apart.
- `HOME` is set to the app's files directory, which is the parent of the bundle and not
  inside it.
- `startNodeProcess` overwrites a live handle and leaks the old child
  (`StartWhileRunningLeaksChild`).
- `stopNodeProcess` waits without a bound.

## Model

| member | source | states |
|---|---|---|
| `AssetMaterializer.Gate` | app/src/main/java/com/ypwq/ypwq/trilium/NodeService.kt:75-110 | the existing target is kept exactly when both markers exist, both versions could be read and the trimmed versions are equal; a missing marker alone is what yields `MarkerMissing` |
| `AssetMaterializer.ReadVersion` | app/src/main/java/com/ypwq/ypwq/trilium/NodeService.kt:87-100 | a version is read exactly when `version.txt` exists as a file and the read does not throw, and it is that file's text trimmed; a missing or directory `version.txt`, or a throwing read, yields no version |
| `VersionText.Trim` | app/src/main/java/com/ypwq/ypwq/trilium/NodeService.kt:88 | the trimmed version is an infix of the text, only whitespace is cut from either side, and it neither starts nor ends with whitespace |
| `VersionText.TrimIgnoresPadding` | app/src/main/java/com/ypwq/ypwq/trilium/NodeService.kt:96 | whitespace padding on either side of a version never changes the token the two sides compare |
| `VersionText.TrimIdempotent` | app/src/main/java/com/ypwq/ypwq/trilium/NodeService.kt:88 | trimming an already trimmed version changes nothing |
| `AssetMaterializer.CopyAssetDirectory` | app/src/main/java/com/ypwq/ypwq/trilium/NodeService.kt:73-160 | the fast path is taken exactly when the target exists and the gate says up to date, and then nothing changes; a failed wipe leaves a shrunk old tree; a failed `mkdirs` leaves no target; a null listing leaves an empty directory; a completed copy has the flag at its root |
| `AssetMaterializer.Rebuild` | app/src/main/java/com/ypwq/ypwq/trilium/NodeService.kt:123-159 | after the wipe: `MkdirsFailed` exactly when `mkdirs` fails, and a null listing returns before any copy |
| `AssetMaterializer.Finish` | app/src/main/java/com/ypwq/ypwq/trilium/NodeService.kt:146-159 | the copy completes exactly when no exception escaped the loop and the flag exists or `createNewFile` does not throw; a completed directory lists the flag |
| `AssetMaterializer.CopyEntries` | app/src/main/java/com/ypwq/ypwq/trilium/NodeService.kt:133-144 | the listing loop only ever writes under names the asset directory lists |
| `AssetMaterializer.CopyAssetFile` | app/src/main/java/com/ypwq/ypwq/trilium/NodeService.kt:174-193 | only a throwing `close` leaves the call; when the asset or the output stream cannot be opened (a directory in the way) the target is untouched; once both open, the target is a file holding a prefix of the asset, even after a stream fault, and all of it when no fault occurs |
| `ChunkedCopy.Pump` | app/src/main/java/com/ypwq/ypwq/trilium/NodeService.kt:182-186 | from any round on, the written bytes stay a prefix of the asset no shorter than what was already written, and equal the asset when no fault lies ahead |
| `ChunkedCopy.CopyStream` | app/src/main/java/com/ypwq/ypwq/trilium/NodeService.kt:182-186 | the imperative chunk loop writes exactly what the functional pump describes: a prefix of the asset, all of it when nothing throws |
| `ChunkedCopy.ChunkLen` | app/src/main/java/com/ypwq/ypwq/trilium/NodeService.kt:182-184 | one read delivers at least one byte and at most one 4096-byte buffer, never more than remains |
| `DirectoryDelete.DeleteDirectory` | app/src/main/java/com/ypwq/ypwq/trilium/NodeService.kt:163-171 | the result is true exactly when nothing is left; a directory whose listing is null is left untouched with result false |
| `DirectoryDelete.DeleteSucceedsIffDeletable` | app/src/main/java/com/ypwq/ypwq/trilium/NodeService.kt:163-171 | deletion succeeds exactly when no node of the tree has a null listing or a failing `delete` |
| `DirectoryDelete.DeleteOnlyRemoves` | app/src/main/java/com/ypwq/ypwq/trilium/NodeService.kt:163-171 | whatever a failed deletion leaves is the original tree with entries removed, in order, at any depth |
| `DirectoryDelete.DeleteStopsAtFirstFailure` | app/src/main/java/com/ypwq/ypwq/trilium/NodeService.kt:165-167 | children go first; the first one that resists stops the walk: earlier siblings are gone, it stays, every later sibling is untouched, and the parent remains |
| `MaterializerProperties.FaultFreeCopyMirrors` | app/src/main/java/com/ypwq/ypwq/trilium/NodeService.kt:123-152 | with no faults, copying into a missing target completes and builds exactly the reference mirror of the assets |
| `MaterializerProperties.MirrorKeepsFiles` | app/src/main/java/com/ypwq/ypwq/trilium/NodeService.kt:133-143 | every asset file is in the mirror at the same relative path with identical bytes |
| `MaterializerProperties.MirrorFlagsEveryDirectory` | app/src/main/java/com/ypwq/ypwq/trilium/NodeService.kt:146-152 | every asset directory, the root included, carries its own completion flag in the mirror |
| `MaterializerProperties.MirrorCarriesVersion` | app/src/main/java/com/ypwq/ypwq/trilium/NodeService.kt:77-100 | the mirror holds both markers and the assets' version |
| `MaterializerProperties.ReCopyMirrors` | app/src/main/java/com/ypwq/ypwq/trilium/NodeService.kt:112-152 | a stale target that can be wiped is replaced by exactly the mirror, whatever it held before |
| `MaterializerProperties.VersionChangeReinstalls` | app/src/main/java/com/ypwq/ypwq/trilium/NodeService.kt:102-152 | a version change rebuilds the target, the installed version then reads as the assets' version, and the next run takes the fast path |
| `MaterializerProperties.MaterializeIdempotent` | app/src/main/java/com/ypwq/ypwq/trilium/NodeService.kt:75-108 | right after a fault-free install, a second run takes the fast path and changes nothing |
| `MaterializerProperties.WipeFailureAborts` | app/src/main/java/com/ypwq/ypwq/trilium/NodeService.kt:113-120 | when the old target cannot be wiped the call gives up: nothing is copied and no new name, the flag included, appears |
| `MaterializerProperties.MkdirsFailureAborts` | app/src/main/java/com/ypwq/ypwq/trilium/NodeService.kt:123-127 | when `mkdirs` fails the call gives up with no target at all |
| `MaterializerProperties.EscapeLeavesNoFlag` | app/src/main/java/com/ypwq/ypwq/trilium/NodeService.kt:155-159 | after an exception escapes the loop, no flag is left unless the assets list one, and the directory is gone entirely when its clean-up meets no fault |
| `MaterializerProperties.SwallowedFailuresStillComplete` | app/src/main/java/com/ypwq/ypwq/trilium/NodeService.kt:133-152 | when nothing throws at the top level, the root is marked complete whatever failed in the files and sub-directories below |
| `MaterializerProperties.CalmLoopDoesNotEscape` | app/src/main/java/com/ypwq/ypwq/trilium/NodeService.kt:187-191 | swallowed per-file errors and failing sub-copies never end the parent's listing loop |
| `MaterializerProperties.FlagDoesNotCertifyCopy` | app/src/main/java/com/ypwq/ypwq/trilium/NodeService.kt:187-188 | a `main.cjs` truncated to one byte still gets the directory flagged complete, and the next run trusts it and takes the fast path |
| `MaterializerProperties.SubCopyFailureIsLocal` | app/src/main/java/com/ypwq/ypwq/trilium/NodeService.kt:155-159 | a throwing `createNewFile` inside `node` deletes that whole sub-directory, yet the root is marked complete |
| `ProcessSupervisor.Command` | app/src/main/java/com/ypwq/ypwq/trilium/NodeService.kt:238-239 | the child runs the very files the existence check looked up: the bundle's `NodeExecutable` and its `main.cjs`, both as absolute paths |
| `ProcessSupervisor.ChildEnvironment` | app/src/main/java/com/ypwq/ypwq/trilium/NodeService.kt:245-256 | the child environment has the inherited keys plus exactly `OPENSSL_CONF`, `LD_LIBRARY_PATH` and `HOME`, set to the bundle's `openssl.cnf`, the bundle's `lib` and the files directory; every other variable is inherited unchanged |
| `ProcessSupervisor.OverridesHideInherited` | app/src/main/java/com/ypwq/ypwq/trilium/NodeService.kt:245-256 | the inherited values of the three overridden variables never reach the child |
| `ProcessSupervisor.ChildEnvironmentStable` | app/src/main/java/com/ypwq/ypwq/trilium/NodeService.kt:245-256 | applying the overrides to an environment that already carries them changes nothing |
| `ProcessSupervisor.SetExecutablePermission` | app/src/main/java/com/ypwq/ypwq/trilium/NodeService.kt:209-226 | `chmod 755` on the binary's absolute path is issued exactly when the binary exists, and it grants the permission exactly when it exits with 0 |
| `ProcessSupervisor.StartNodeProcess` | app/src/main/java/com/ypwq/ypwq/trilium/NodeService.kt:229-287 | nothing happens unless both the binary and the script exist; otherwise the launch uses the command and the child environment, and a successful spawn puts a new live child in the handle |
| `ProcessSupervisor.StopNodeProcess` | app/src/main/java/com/ypwq/ypwq/trilium/NodeService.kt:324-343 | stopping does nothing unless the handle holds a live child; then the handle is cleared even when the wait is interrupted, and the child is gone unless the interrupted wait let it survive |
| `ProcessSupervisor.StopIdempotent` | app/src/main/java/com/ypwq/ypwq/trilium/NodeService.kt:324-343 | a second stop after a stop changes nothing |
| `ProcessSupervisor.StartWhileRunningLeaksChild` | app/src/main/java/com/ypwq/ypwq/trilium/NodeService.kt:268 | starting while a child runs moves the handle to the new child, and a later stop leaves the old child alive and untracked |
| `ProcessSupervisor.ChildExits` | app/src/main/java/com/ypwq/ypwq/trilium/NodeService.kt:280-281 | a child that exits on its own is no longer alive, and nothing else about the host changes: the handle keeps pointing at it |
| `ProcessSupervisor.ExitedChildIsNeverCleared` | app/src/main/java/com/ypwq/ypwq/trilium/NodeService.kt:324-342 | after the child exits on its own, the handle still holds the dead child and a later stop, which only acts on a live one, changes nothing, so the reference is never cleared |
| `BootSequence.FreshInstallCanLaunch` | app/src/main/java/com/ypwq/ypwq/trilium/NodeService.kt:36-44 | after a fault-free first install of a bundle with a binary and a script, `chmod` is issued and the start's existence check passes |
| `BootSequence.NoBundleNoLaunch` | app/src/main/java/com/ypwq/ypwq/trilium/NodeService.kt:231-234 | whenever the copy left no bundle (a failed `mkdirs`, or a failed copy whose clean-up removed the directory), neither `chmod` nor the spawn happens |
| `ReadinessProber.Run` | app/src/main/java/com/ypwq/ypwq/trilium/MainActivity.kt:55-105 | at or above the maximum a check only emits the give-up notice; the count never decreases and never passes the maximum from below; the polling gives up exactly when the count reaches the maximum, and it ends with the UI load exactly when it ends loaded |
| `ReadinessProber.ReadyIsExactly200` | app/src/main/java/com/ypwq/ypwq/trilium/MainActivity.kt:81 | only status 200 counts as ready, so every other 2xx answer is a failure |
| `ReadinessProber.RequestsTrackCount` | app/src/main/java/com/ypwq/ypwq/trilium/MainActivity.kt:58-95 | the number of requests equals the count's growth, plus one for a request that succeeded or is still outstanding; there is one give-up notice exactly when the prober gave up |
| `ReadinessProber.FailureRearms` | app/src/main/java/com/ypwq/ypwq/trilium/MainActivity.kt:71-77 | a transport failure or a non-200 answer raises the count by exactly one and re-arms the check after 2000 ms |
| `ReadinessProber.ReadyLoads` | app/src/main/java/com/ypwq/ypwq/trilium/MainActivity.kt:81-87 | a 200 keeps the count, cancels the pending check, loads the default URL and issues no further request |
| `ReadinessProber.LaterOutcomesIgnored` | app/src/main/java/com/ypwq/ypwq/trilium/MainActivity.kt:80-87 | nothing after the first 200 is ever consulted |
| `ReadinessProber.AlwaysFailingGivesUp` | app/src/main/java/com/ypwq/ypwq/trilium/MainActivity.kt:58-63 | against a server that never answers 200, polling from count `c` issues exactly `10 - c` requests and then gives up once |
| `ReadinessProber.TenRequestsThenGiveUp` | app/src/main/java/com/ypwq/ypwq/trilium/MainActivity.kt:37-39 | from a fresh start, an unreachable server gets exactly ten requests and one give-up notice |
| `ReadinessProber.NoContentIsNotReady` | app/src/main/java/com/ypwq/ypwq/trilium/MainActivity.kt:88-95 | two refused connections and a 204 cost three retries, and the 200 after them loads the UI on the fourth request |
| `UrlRouting.ShouldOverrideUrlLoading` | app/src/main/java/com/ypwq/ypwq/trilium/MainActivity.kt:140-156 | a navigation is handled exactly when the URL is present and is a web link or the external launch succeeds; only web links load in the view, and only other links are handed out |
| `UrlRouting.WebLinksStayInside` | app/src/main/java/com/ypwq/ypwq/trilium/MainActivity.kt:144-155 | `http://` and `https://` links always load in the view; every other link is opened externally, or declined when that throws |
| `UrlRouting.UpperCaseSchemeGoesOutside` | app/src/main/java/com/ypwq/ypwq/trilium/MainActivity.kt:144 | the scheme test is case-sensitive, so `HTTP://…` is treated as an external link |

## Left out

- The Android `Service` lifecycle is left out because it is platform glue: `onCreate`,
  `onStartCommand`, `onDestroy`, `onBind`, the `LocalBinder`, the notification channel and
  foreground notification. `BootSequence` keeps only the order of the copy, `chmod` and the
  start.
- The two background threads of `startNodeProcess` are left out as concurrency: the spawning
  thread, and `readProcessOutput` with its line-by-line draining. The check of the files
  runs at thread start in the source; the model takes it at the call. The child's exit is
  the separate event `ChildExits`.
- `readProcessOutputi2` is left out because nothing calls it.
- `isAssetDirectory` is replaced by the asset tree's own types (a node is a `File` or a
  `Dir`). Its open/`FileNotFoundException` probe, which can misjudge an entry when `open`
  throws something else, is not modelled.
- `AssetMaterializer.ReadVersion` reads bytes as characters one to one (Latin-1). Kotlin
  decodes UTF-8, and bundles whose `version.txt` holds non-ASCII text may compare
  differently.
- `ProcessSupervisor.Command` and `ProcessSupervisor.ChildEnvironment` build absolute paths
  by joining with `/`. They do not normalize the files directory (no `..`, no trailing
  slash).
- `ProcessSupervisor.SetExecutablePermission` records the `chmod` it issues and its outcome,
  not permission bits on the tree. The model's filesystem has no mode bits.
- `ProcessSupervisor.StopNodeProcess` takes the effect of `destroy()` together with
  `waitFor()` as the oracle `WaitOutcome`. Signals and timing are not modelled.
- A `SecurityException` from `File.exists`, `mkdirs` or `listFiles` is not modelled, because
  the service catches none of these outside the copy loop.
- OkHttp itself is replaced by the sequence of request outcomes: the 3-second timeouts, the
  `Handler` delays and thread hand-offs, and the Toasts as UI (their texts become events).
  The interleaving of a callback with a re-armed check is not modelled.
- The WebView settings, back-key handling, and saving and restoring state are left out as
  UI only.
- `ChunkedCopy.Pump` takes a failing `write` to write nothing of its round. A
  `FileOutputStream.write` that fails part-way through a buffer can leave some of that
  round's bytes in the file, which the model does not represent.
- `settings.gradle.kts` is build configuration.
- The order of `File.listFiles()` is taken to be creation order (the order the copy wrote
  the entries in). Java gives no order guarantee. The order only decides which entries
  survive a failed deletion: `DirectoryDelete.DeleteStopsAtFirstFailure` speaks of
  siblings in the listing order the model assumes.
