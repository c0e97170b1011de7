/**
 * `copyAssetDirectory`: mirror the read-only asset directory `src` into the private
 * directory whose current contents are `tgt` (None: it does not exist).
 *
 * An existing target is kept untouched when it holds both `version.txt` and
 * `copy_complete.flag` and its trimmed version equals the asset's; otherwise it is wiped
 * and rebuilt: `mkdirs`, then every listed entry is copied (sub-directories by the same
 * procedure, files by `copyAssetFile`), then the directory's own `copy_complete.flag` is
 * created. An exception that escapes the listing loop deletes the directory again.
 *
 * Every fault the platform can inject is an oracle in `Env`, keyed by the path relative
 * to the bundle root.
 */
module AssetMaterializer {
  import opened Basics
  import opened FsTree
  import opened VersionText
  import opened ChunkedCopy
  import opened DirectoryDelete

  /** What `assets.list(dir)` does: return the names, return null, or throw. */
  datatype ListOutcome = Listed | ListNull | ListThrows

  /**
   * The I/O of one `copyAssetFile` call: whether `assets.open` and `FileOutputStream`
   * succeed, how the byte pump behaves, and whether closing the streams in `finally` throws
   * (the one exception that leaves `copyAssetFile`).
   */
  datatype FileIo = FileIo(inputOpens: bool, outputOpens: bool, stream: StreamIo, closeThrows: bool)

  /**
   * The environment of one materialization: unreadable `version.txt` files in the target
   * and in the assets, faults of the wipe before the copy, failing `mkdirs`, listing
   * outcomes (absent key: the listing succeeds), per-file I/O (absent key: the copy
   * succeeds), throwing `createNewFile`, and faults of the clean-up after a failed copy.
   */
  datatype Env = Env(
    unreadableTarget: set<Path>,
    unreadableSource: set<Path>,
    wipe: DeleteFaults,
    mkdirsFails: set<Path>,
    listing: map<Path, ListOutcome>,
    fileIo: map<Path, FileIo>,
    flagThrows: set<Path>,
    cleanup: DeleteFaults)

  /** File I/O under which everything succeeds. */
  const CleanFileIo: FileIo := FileIo(true, true, Reliable(_ => BufferSize), false)

  function ListingAt(env: Env, p: Path): ListOutcome
  {
    if p in env.listing then env.listing[p] else Listed
  }

  function FileIoAt(env: Env, p: Path): FileIo
  {
    if p in env.fileIo then env.fileIo[p] else CleanFileIo
  }

  /** Why the existing target is kept or rebuilt. */
  datatype Verdict = UpToDate | MarkerMissing | VersionUnreadable | VersionMismatch

  /** Which branch of `copyAssetDirectory` ended the call. */
  datatype Status = FastPath | WipeFailed | MkdirsFailed | ListingNull | Completed | CopyFailed

  datatype Materialized = Materialized(status: Status, target: Option<Node>)

  /** The directory's entries when the listing loop stops, and whether an exception ended it. */
  datatype Loop = Loop(entries: seq<Entry>, escaped: bool)

  /** The target slot after `copyAssetFile`, and whether an exception left the call. */
  datatype FileCopy = FileCopy(slot: Option<Node>, escaped: bool)

  /** `readText().trim()` of the `version.txt` in directory `n`; None when the read throws. */
  function ReadVersion(n: Node, unreadable: bool): (v: Option<string>)
    ensures v.Some? ==> Child(n, VersionName).Some? && Child(n, VersionName).value.File?
    ensures v.Some? ==> v.value == Trim(Text(Child(n, VersionName).value.data))
    ensures unreadable ==> v.None?
    ensures !unreadable && Child(n, VersionName).Some? && Child(n, VersionName).value.File? ==> v.Some?
  {
    match Child(n, VersionName)
    case Some(File(d)) => if unreadable then None else Some(Trim(Text(d)))
    case _ => None
  }

  function TargetVersion(tgt: Node, env: Env, p: Path): Option<string>
  {
    ReadVersion(tgt, p in env.unreadableTarget)
  }

  function SourceVersion(src: Node, env: Env, p: Path): Option<string>
  {
    ReadVersion(src, p in env.unreadableSource)
  }

  /** Both markers are present in the existing target. */
  predicate HasMarkers(tgt: Node)
  {
    VersionName in Names(Listing(tgt)) && FlagName in Names(Listing(tgt))
  }

  /**
   * The validity check on an existing target. It keeps the target exactly when both
   * markers exist, both version files could be read, and the trimmed versions agree.
   */
  function Gate(src: Node, tgt: Node, env: Env, p: Path): (v: Verdict)
    ensures v == UpToDate <==>
      HasMarkers(tgt) && TargetVersion(tgt, env, p).Some? && TargetVersion(tgt, env, p) == SourceVersion(src, env, p)
    ensures v == MarkerMissing <==> !HasMarkers(tgt)
  {
    if Child(tgt, VersionName).None? || Child(tgt, FlagName).None? then MarkerMissing
    else
      var targetVersion := TargetVersion(tgt, env, p);
      var sourceVersion := SourceVersion(src, env, p);
      if targetVersion.None? || sourceVersion.None? then VersionUnreadable
      else if targetVersion.value != sourceVersion.value then VersionMismatch
      else UpToDate
  }

  /** The `deleteDirectory(targetDir)` of the catch block; its result is ignored. */
  function Cleanup(n: Node, env: Env, p: Path): (r: Option<Node>)
  {
    DeleteDirectory(n, env.cleanup, p).rest
  }

  /**
   * `copyAssetFile`: when either stream cannot be opened (a directory in the way makes
   * `FileOutputStream` throw) the target is left as it was; otherwise the output stream
   * has created or truncated the file, which holds a prefix of the asset (all of it when
   * nothing fails). Only a throwing `close` leaves the call.
   */
  function CopyAssetFile(data: Bytes, slot: Option<Node>, io: FileIo): (r: FileCopy)
    ensures r.escaped <==> io.inputOpens && io.closeThrows
    ensures !io.inputOpens ==> r.slot == slot
    ensures r.slot == slot || (r.slot.Some? && r.slot.value.File? && |r.slot.value.data| <= |data| && r.slot.value.data == data[..|r.slot.value.data|])
    ensures io.inputOpens && (!io.outputOpens || (slot.Some? && slot.value.Dir?)) ==> r.slot == slot
    ensures io.inputOpens && io.outputOpens && (slot.None? || slot.value.File?) ==>
      r.slot.Some? && r.slot.value.File? && |r.slot.value.data| <= |data| && r.slot.value.data == data[..|r.slot.value.data|]
    ensures io.inputOpens && io.outputOpens && io.stream.faultAt.None? && (slot.None? || slot.value.File?)
      ==> r.slot == Some(File(data))
  {
    if !io.inputOpens then FileCopy(slot, false)
    else if !io.outputOpens || (slot.Some? && slot.value.Dir?) then FileCopy(slot, io.closeThrows)
    else FileCopy(Some(File(StreamCopy(data, io.stream).written)), io.closeThrows)
  }

  function CopyAssetDirectory(src: Node, tgt: Option<Node>, env: Env, p: Path): (r: Materialized)
    ensures r.status == FastPath <==> tgt.Some? && Gate(src, tgt.value, env, p) == UpToDate
    ensures r.status == FastPath ==> r.target == tgt
    ensures r.status == WipeFailed ==> tgt.Some? && r.target.Some? && Shrunk(r.target.value, tgt.value)
    ensures r.status == MkdirsFailed ==> r.target.None?
    ensures r.status == ListingNull ==> r.target == Some(Dir([]))
    ensures r.status == Completed ==> r.target.Some? && FlagName in Names(Listing(r.target.value))
    decreases src, 2
  {
    if tgt.Some? && Gate(src, tgt.value, env, p) == UpToDate then Materialized(FastPath, tgt)
    else
      var wiped := if tgt.Some? then DeleteDirectory(tgt.value, env.wipe, p) else Deletion(true, None);
      if !wiped.ok then
        DeleteOnlyRemoves(tgt.value, env.wipe, p);
        Materialized(WipeFailed, wiped.rest)
      else Rebuild(src, env, p)
  }

  /** From `mkdirs` on, once the target no longer exists: create it, list the assets, copy. */
  function Rebuild(src: Node, env: Env, p: Path): (r: Materialized)
    ensures r.status != FastPath && r.status != WipeFailed
    ensures r.status == MkdirsFailed <==> p in env.mkdirsFails
    ensures r.status == MkdirsFailed ==> r.target.None?
    ensures r.status == ListingNull ==> r.target == Some(Dir([]))
    ensures r.status == Completed ==> r.target.Some? && FlagName in Names(Listing(r.target.value))
    decreases src, 1
  {
    if p in env.mkdirsFails then Materialized(MkdirsFailed, None)
    else match ListingAt(env, p)
      case ListNull => Materialized(ListingNull, Some(Dir([])))
      case ListThrows => Materialized(CopyFailed, Cleanup(Dir([]), env, p))
      case Listed => Finish(CopyEntries(src, 0, [], env, p), env, p)
  }

  /**
   * After the listing loop: an escaped exception deletes the directory; otherwise
   * `createNewFile` adds the flag (it returns false, harmlessly, if the name exists),
   * and a throwing `createNewFile` deletes the directory too.
   */
  function Finish(loop: Loop, env: Env, p: Path): (r: Materialized)
    ensures r.status == Completed || r.status == CopyFailed
    ensures r.status == Completed <==> !loop.escaped && (FlagName in Names(loop.entries) || p !in env.flagThrows)
    ensures r.status == Completed ==> r.target.Some? && FlagName in Names(Listing(r.target.value))
  {
    if loop.escaped then Materialized(CopyFailed, Cleanup(Dir(loop.entries), env, p))
    else if FlagName in Names(loop.entries) then Materialized(Completed, Some(Dir(loop.entries)))
    else if p in env.flagThrows then Materialized(CopyFailed, Cleanup(Dir(loop.entries), env, p))
    else Materialized(Completed, Some(Dir(Put(loop.entries, FlagName, File([])))))
  }

  /**
   * The listing loop from entry `i` on, the directory holding `cur`: it only ever
   * writes under names the asset directory lists.
   */
  function CopyEntries(src: Node, i: nat, cur: seq<Entry>, env: Env, p: Path): (r: Loop)
    ensures Names(r.entries) <= Names(cur) + Names(Listing(src))
    decreases src, 0, |Listing(src)| - i
  {
    match src
    case File(_) => Loop(cur, false)
    case Dir(es) =>
      if i >= |es| then Loop(cur, false)
      else
        var e := es[i];
        var q := p + [e.name];
        assert e.name in Names(es) by { NameListed(es, i); }
        match e.node
        case Dir(_) =>
          var sub := CopyAssetDirectory(e.node, Find(cur, e.name), env, q);
          CopyEntries(src, i + 1, Store(cur, e.name, sub.target), env, p)
        case File(data) =>
          var fc := CopyAssetFile(data, Find(cur, e.name), FileIoAt(env, q));
          var next := Store(cur, e.name, fc.slot);
          if fc.escaped then Loop(next, true) else CopyEntries(src, i + 1, next, env, p)
  }

  lemma NameListed(es: seq<Entry>, i: nat)
    requires i < |es|
    ensures es[i].name in Names(es)
  {
    if i > 0 {
      NameListed(es[1..], i - 1);
    }
  }
}
