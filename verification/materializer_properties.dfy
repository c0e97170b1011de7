/**
 * What `copyAssetDirectory` guarantees, and what it does not: a reference definition of
 * the tree a fault-free copy builds (`Mirror`), the fast path after such a copy, the
 * aborts, the clean-up after an escaped exception, and the swallowed per-file failures
 * that leave a completion flag over an incomplete copy.
 */
module MaterializerProperties {
  import opened Basics
  import opened FsTree
  import opened VersionText
  import opened ChunkedCopy
  import opened DirectoryDelete
  import opened AssetMaterializer

  /** The empty completion marker created by `createNewFile`. */
  const FlagEntry: Entry := Entry(FlagName, File([]))

  /**
   * The tree a copy of `src` builds when nothing fails: every entry of the asset directory
   * in listing order, files byte for byte, sub-directories mirrored in turn, and a
   * completion flag appended to every directory that does not already list that name.
   */
  function Mirror(src: Node): Node
    decreases src, 1
  {
    Dir(WithFlag(MirrorEntries(src, 0)))
  }

  function MirrorEntries(src: Node, i: nat): seq<Entry>
    decreases src, 0, |Listing(src)| - i
  {
    match src
    case File(_) => []
    case Dir(es) =>
      if i >= |es| then []
      else [Entry(es[i].name, MirrorOf(es[i].node))] + MirrorEntries(src, i + 1)
  }

  /** How a child of an asset directory appears in the copy. */
  function MirrorOf(c: Node): Node
    decreases c, 2
  {
    if c.File? then c else Mirror(c)
  }

  function WithFlag(es: seq<Entry>): seq<Entry>
  {
    if FlagName in Names(es) then es else es + [FlagEntry]
  }

  /** No step of a copy fails: `mkdirs`, listings, file copies and flag creation all succeed. */
  predicate CopyFaultFree(env: Env)
  {
    env.mkdirsFails == {} && env.listing == map[] && env.fileIo == map[] && env.flagThrows == {}
  }

  /** A copy into a missing target under no faults builds exactly the mirror of the assets. */
  lemma {:induction false} FaultFreeCopyMirrors(src: Node, env: Env, p: Path)
    requires WellFormed(src) && CopyFaultFree(env)
    ensures CopyAssetDirectory(src, None, env, p) == Materialized(Completed, Some(Mirror(src)))
    decreases src, 2, 0, 0
  {
    FaultFreeLoop(src, 0, [], env, p);
    var es := MirrorEntries(src, 0);
    assert CopyEntries(src, 0, [], env, p) == Loop(es, false);
    assert ListingAt(env, p) == Listed;
    if FlagName !in Names(es) {
      assert Put(es, FlagName, File([])) == es + [FlagEntry];
    }
    assert Rebuild(src, env, p) == Materialized(Completed, Some(Mirror(src)));
  }

  lemma {:induction false} FaultFreeLoop(src: Node, i: nat, cur: seq<Entry>, env: Env, p: Path)
    requires WellFormed(src) && CopyFaultFree(env) && i <= |Listing(src)|
    requires forall j :: i <= j < |Listing(src)| ==> Listing(src)[j].name !in Names(cur)
    ensures CopyEntries(src, i, cur, env, p) == Loop(cur + MirrorEntries(src, i), false)
    decreases src, 0, |Listing(src)| - i, 1
  {
    if i < |Listing(src)| {
      var e := Listing(src)[i];
      var next := cur + [Entry(e.name, MirrorOf(e.node))];
      calc {
        CopyEntries(src, i, cur, env, p);
        { FaultFreeStep(src, i, cur, env, p); }
        CopyEntries(src, i + 1, next, env, p);
        { StillFresh(Listing(src), i, cur, MirrorOf(e.node));
          FaultFreeLoop(src, i + 1, next, env, p); }
        Loop(next + MirrorEntries(src, i + 1), false);
        { MirrorEntriesUnfold(src, i);
          assert next + MirrorEntries(src, i + 1) == cur + MirrorEntries(src, i); }
        Loop(cur + MirrorEntries(src, i), false);
      }
    } else {
      LoopEnds(src, i, cur, env, p);
      assert cur + MirrorEntries(src, i) == cur;
    }
  }

  /** Names listed after entry `i` stay unused once entry `i` has been written. */
  lemma StillFresh(es: seq<Entry>, i: nat, cur: seq<Entry>, m: Node)
    requires UniqueNames(es) && i < |es|
    requires forall j :: i <= j < |es| ==> es[j].name !in Names(cur)
    ensures forall j :: i + 1 <= j < |es| ==> es[j].name !in Names(cur + [Entry(es[i].name, m)])
  {
    NamesConcat(cur, [Entry(es[i].name, m)]);
  }

  /** Past the last listed entry the loop stops, and the mirror has nothing left to add. */
  lemma LoopEnds(src: Node, i: nat, cur: seq<Entry>, env: Env, p: Path)
    requires i >= |Listing(src)|
    ensures CopyEntries(src, i, cur, env, p) == Loop(cur, false)
    ensures MirrorEntries(src, i) == []
  {
  }

  lemma MirrorEntriesUnfold(src: Node, i: nat)
    requires i < |Listing(src)|
    ensures MirrorEntries(src, i) == [Entry(Listing(src)[i].name, MirrorOf(Listing(src)[i].node))] + MirrorEntries(src, i + 1)
  {
  }

  /** One round of the listing loop under no faults appends the mirror of the entry. */
  lemma {:induction false} FaultFreeStep(src: Node, i: nat, cur: seq<Entry>, env: Env, p: Path)
    requires WellFormed(src) && CopyFaultFree(env) && i < |Listing(src)|
    requires Listing(src)[i].name !in Names(cur)
    ensures CopyEntries(src, i, cur, env, p)
      == CopyEntries(src, i + 1, cur + [Entry(Listing(src)[i].name, MirrorOf(Listing(src)[i].node))], env, p)
    decreases src, 0, |Listing(src)| - i, 0
  {
    var e := Listing(src)[i];
    var q := p + [e.name];
    assert Find(cur, e.name) == None;
    if e.node.Dir? {
      FaultFreeCopyMirrors(e.node, env, q);
    } else {
      assert FileIoAt(env, q) == CleanFileIo;
    }
  }

  /** A child of the asset directory reappears, mirrored, under the same name in the copy. */
  lemma {:induction false} ChildOfMirror(src: Node, x: Name)
    requires Child(src, x).Some?
    ensures Child(Mirror(src), x) == Some(MirrorOf(Child(src, x).value))
  {
    FindMirrorEntries(src, 0, x);
    assert Listing(src)[0..] == Listing(src);
    FindInFront(MirrorEntries(src, 0), [FlagEntry], x);
  }

  lemma {:induction false} FindMirrorEntries(src: Node, i: nat, x: Name)
    requires i <= |Listing(src)|
    requires Find(Listing(src)[i..], x).Some?
    ensures Find(MirrorEntries(src, i), x) == Some(MirrorOf(Find(Listing(src)[i..], x).value))
    ensures x in Names(MirrorEntries(src, i))
    decreases |Listing(src)| - i
  {
    var es := Listing(src);
    if es[i].name != x {
      assert es[i..][1..] == es[i + 1..];
      FindMirrorEntries(src, i + 1, x);
    }
  }

  /** Every file of the assets is in the mirror at the same relative path with the same bytes. */
  lemma {:induction false} MirrorKeepsFiles(src: Node, p: Path)
    requires |p| > 0 && Lookup(src, p).Some? && Lookup(src, p).value.File?
    ensures Lookup(Mirror(src), p) == Lookup(src, p)
    decreases |p|
  {
    var c := Child(src, p[0]).value;
    ChildOfMirror(src, p[0]);
    if |p| > 1 {
      assert c.Dir?;
      MirrorKeepsFiles(c, p[1..]);
    }
  }

  /** Every directory of the assets, the root included, carries a completion flag in the mirror. */
  lemma {:induction false} MirrorFlagsEveryDirectory(src: Node, p: Path)
    requires Lookup(src, p).Some? && Lookup(src, p).value.Dir?
    ensures Lookup(Mirror(src), p + [FlagName]).Some?
    decreases |p|
  {
    if |p| == 0 {
      NamesConcat(MirrorEntries(src, 0), [FlagEntry]);
      assert FlagName in Names(WithFlag(MirrorEntries(src, 0)));
      assert p + [FlagName] == [FlagName];
    } else {
      var c := Child(src, p[0]).value;
      ChildOfMirror(src, p[0]);
      assert c.Dir?;
      MirrorFlagsEveryDirectory(c, p[1..]);
      assert (p + [FlagName])[1..] == p[1..] + [FlagName];
    }
  }

  /** Both markers, and the asset's version, are in the mirror. */
  lemma {:induction false} MirrorCarriesVersion(src: Node, env: Env, p: Path)
    requires SourceVersion(src, env, p).Some? && p !in env.unreadableTarget
    ensures HasMarkers(Mirror(src))
    ensures TargetVersion(Mirror(src), env, p) == SourceVersion(src, env, p)
  {
    ChildOfMirror(src, VersionName);
    var es := MirrorEntries(src, 0);
    NamesConcat(es, [FlagEntry]);
    if VersionName !in Names(es) {
      FindInFront(es, [FlagEntry], VersionName);
    }
  }

  /**
   * Whenever the existing target is rebuilt and nothing fails (the wipe included), the
   * result is the mirror of the assets, whatever the target held before.
   */
  lemma ReCopyMirrors(src: Node, tgt: Option<Node>, env: Env, p: Path)
    requires WellFormed(src) && CopyFaultFree(env)
    requires tgt.Some? ==> Gate(src, tgt.value, env, p) != UpToDate && Deletable(tgt.value, env.wipe, p)
    ensures CopyAssetDirectory(src, tgt, env, p) == Materialized(Completed, Some(Mirror(src)))
  {
    FaultFreeCopyMirrors(src, env, p);
    if tgt.Some? {
      DeleteSucceedsIffDeletable(tgt.value, env.wipe, p);
    }
  }

  /**
   * A version change forces a rebuild that installs the assets' version, after which the
   * next run, seeing the same assets, takes the fast path and leaves everything alone.
   */
  lemma VersionChangeReinstalls(src: Node, tgt: Node, env: Env, p: Path)
    requires WellFormed(src) && CopyFaultFree(env) && Deletable(tgt, env.wipe, p)
    requires Gate(src, tgt, env, p) == VersionMismatch
    ensures var r := CopyAssetDirectory(src, Some(tgt), env, p);
      && r == Materialized(Completed, Some(Mirror(src)))
      && TargetVersion(r.target.value, env, p) == SourceVersion(src, env, p)
      && CopyAssetDirectory(src, r.target, env, p) == Materialized(FastPath, r.target)
  {
    ReCopyMirrors(src, Some(tgt), env, p);
    MirrorCarriesVersion(src, env, p);
  }

  /** Materializing twice in a row: the second run does no I/O and changes nothing. */
  lemma MaterializeIdempotent(src: Node, env: Env, later: Env, p: Path)
    requires WellFormed(src) && CopyFaultFree(env)
    requires SourceVersion(src, later, p).Some? && p !in later.unreadableTarget
    ensures var first := CopyAssetDirectory(src, None, env, p);
      CopyAssetDirectory(src, first.target, later, p) == Materialized(FastPath, first.target)
  {
    FaultFreeCopyMirrors(src, env, p);
    MirrorCarriesVersion(src, later, p);
  }

  /**
   * When the old target cannot be wiped the call gives up: nothing is copied, what is
   * left is the old tree with some entries gone, and no new name (no new flag) appears.
   */
  lemma WipeFailureAborts(src: Node, tgt: Node, env: Env, p: Path)
    requires Gate(src, tgt, env, p) != UpToDate && !Deletable(tgt, env.wipe, p)
    ensures var r := CopyAssetDirectory(src, Some(tgt), env, p);
      && r.status == WipeFailed && r.target.Some? && Shrunk(r.target.value, tgt)
      && Names(Listing(r.target.value)) <= Names(Listing(tgt))
  {
    DeleteSucceedsIffDeletable(tgt, env.wipe, p);
    var r := CopyAssetDirectory(src, Some(tgt), env, p);
    ShrunkNames(r.target.value, tgt);
  }

  /** When `mkdirs` fails the call gives up with no target at all. */
  lemma MkdirsFailureAborts(src: Node, tgt: Option<Node>, env: Env, p: Path)
    requires tgt.Some? ==> Gate(src, tgt.value, env, p) != UpToDate && Deletable(tgt.value, env.wipe, p)
    requires p in env.mkdirsFails
    ensures CopyAssetDirectory(src, tgt, env, p) == Materialized(MkdirsFailed, None)
  {
    if tgt.Some? {
      DeleteSucceedsIffDeletable(tgt.value, env.wipe, p);
    }
  }

  /** The clean-up only removes entries. */
  lemma CleanupOnlyRemoves(n: Node, env: Env, p: Path)
    ensures Cleanup(n, env, p).Some? ==> Names(Listing(Cleanup(n, env, p).value)) <= Names(Listing(n))
  {
    DeleteOnlyRemoves(n, env.cleanup, p);
    if Cleanup(n, env, p).Some? {
      ShrunkNames(Cleanup(n, env, p).value, n);
    }
  }

  /** With no deletion faults at all, every tree can be deleted. */
  lemma {:induction false} NoFaultsDeletable(n: Node, p: Path)
    ensures Deletable(n, DeleteFaults({}, {}), p)
    decreases n
  {
    if n.Dir? {
      forall i | 0 <= i < |n.entries|
        ensures Deletable(n.entries[i].node, DeleteFaults({}, {}), p + [n.entries[i].name])
      {
        NoFaultsDeletable(n.entries[i].node, p + [n.entries[i].name]);
      }
    }
  }

  /**
   * An exception that escapes the listing loop, the listing or `createNewFile` leaves no
   * completion flag (unless the assets themselves list one): the flag is written only
   * after the loop, and the catch block deletes the directory, entirely so when the
   * clean-up meets no fault.
   */
  lemma EscapeLeavesNoFlag(src: Node, tgt: Option<Node>, env: Env, p: Path)
    requires CopyAssetDirectory(src, tgt, env, p).status == CopyFailed
    ensures var r := CopyAssetDirectory(src, tgt, env, p);
      && (FlagName !in Names(Listing(src)) ==> r.target.None? || FlagName !in Names(Listing(r.target.value)))
      && (env.cleanup == DeleteFaults({}, {}) ==> r.target.None?)
  {
    var r := CopyAssetDirectory(src, tgt, env, p);
    assert r == Rebuild(src, env, p);
    var left: Node;
    if ListingAt(env, p) == ListThrows {
      left := Dir([]);
    } else {
      left := Dir(CopyEntries(src, 0, [], env, p).entries);
    }
    assert r.target == Cleanup(left, env, p);
    CleanupOnlyRemoves(left, env, p);
    if env.cleanup == DeleteFaults({}, {}) {
      NoFaultsDeletable(left, p);
      DeleteSucceedsIffDeletable(left, env.cleanup, p);
    }
  }

  /** Nothing throws at the top level of the copy (below it, anything may fail). */
  predicate TopLevelCalm(src: Node, env: Env, p: Path)
  {
    && p !in env.mkdirsFails && ListingAt(env, p) == Listed && p !in env.flagThrows
    && forall j :: 0 <= j < |Listing(src)| && Listing(src)[j].node.File? ==>
         !FileIoAt(env, p + [Listing(src)[j].name]).closeThrows
  }

  /**
   * Swallowed failures are invisible to the flag: when nothing throws at the top level,
   * the root is marked complete whatever happened to the files and sub-directories below.
   */
  lemma SwallowedFailuresStillComplete(src: Node, env: Env, p: Path)
    requires TopLevelCalm(src, env, p)
    ensures var r := CopyAssetDirectory(src, None, env, p);
      r.status == Completed && r.target.Some? && FlagName in Names(Listing(r.target.value))
  {
    CalmLoopDoesNotEscape(src, 0, [], env, p);
  }

  lemma {:induction false} CalmLoopDoesNotEscape(src: Node, i: nat, cur: seq<Entry>, env: Env, p: Path)
    requires TopLevelCalm(src, env, p)
    ensures !CopyEntries(src, i, cur, env, p).escaped
    decreases |Listing(src)| - i
  {
    if i < |Listing(src)| {
      var e := Listing(src)[i];
      var q := p + [e.name];
      if e.node.Dir? {
        var sub := CopyAssetDirectory(e.node, Find(cur, e.name), env, q);
        CalmLoopDoesNotEscape(src, i + 1, Store(cur, e.name, sub.target), env, p);
      } else {
        var fc := CopyAssetFile(e.node.data, Find(cur, e.name), FileIoAt(env, q));
        CalmLoopDoesNotEscape(src, i + 1, Store(cur, e.name, fc.slot), env, p);
      }
    } else {
      LoopEnds(src, i, cur, env, p);
    }
  }

  /** An environment in which nothing fails. */
  const NoFaults: Env := Env({}, {}, DeleteFaults({}, {}), {}, map[], map[], {}, DeleteFaults({}, {}))

  /** A small asset bundle: the version marker "1" and a three-byte `main.cjs`. */
  const DemoAssets: Node := Dir([Entry(VersionName, File([49])), Entry("main.cjs", File([1, 2, 3]))])

  /** The second read/write round of `main.cjs` throws, after one byte was written. */
  const TruncatingEnv: Env :=
    NoFaults.(fileIo := map[["main.cjs"] := FileIo(true, true, StreamIo(_ => 1, Some(1)), false)])

  const DemoVersion: Entry := Entry(VersionName, File([49]))
  const DemoTruncated: Entry := Entry("main.cjs", File([1]))

  /**
   * The flag does not certify the copy: a truncated `main.cjs` (its copy error is only
   * logged) still gets the directory marked complete, and every later start trusts it.
   */
  lemma FlagDoesNotCertifyCopy()
    ensures var r := CopyAssetDirectory(DemoAssets, None, TruncatingEnv, []);
      && r.status == Completed
      && Lookup(DemoAssets, ["main.cjs"]) == Some(File([1, 2, 3]))
      && Lookup(r.target.value, ["main.cjs"]) == Some(File([1]))
      && CopyAssetDirectory(DemoAssets, r.target, NoFaults, []) == Materialized(FastPath, r.target)
  {
    DemoCopy();
    DemoGate();
    DemoLookups();
    var out := Dir([DemoVersion, DemoTruncated, FlagEntry]);
    assert CopyAssetDirectory(DemoAssets, Some(out), NoFaults, []).status == FastPath;
  }

  lemma DemoLookups()
    ensures Lookup(DemoAssets, ["main.cjs"]) == Some(File([1, 2, 3]))
    ensures Lookup(Dir([DemoVersion, DemoTruncated, FlagEntry]), ["main.cjs"]) == Some(File([1]))
  {
    DemoNamesDistinct();
    assert ["main.cjs"][1..] == [];
    var es := DemoAssets.entries;
    assert es[0].name == VersionName && es[1..] == [Entry("main.cjs", File([1, 2, 3]))];
    assert Find(es[1..], "main.cjs") == Some(File([1, 2, 3]));
    assert Child(DemoAssets, "main.cjs") == Some(File([1, 2, 3]));
    var out := Dir([DemoVersion, DemoTruncated, FlagEntry]);
    assert out.entries[0].name == VersionName && out.entries[1..] == [DemoTruncated, FlagEntry];
    assert Find(out.entries[1..], "main.cjs") == Some(File([1]));
    assert Child(out, "main.cjs") == Some(File([1]));
  }

  /** The three file names of the example bundle are pairwise distinct. */
  lemma DemoNamesDistinct()
    ensures FlagName != VersionName && FlagName != "main.cjs" && VersionName != "main.cjs"
    ensures "node" != FlagName && "node" != VersionName
  {
  }

  lemma DemoGate()
    ensures Gate(DemoAssets, Dir([DemoVersion, DemoTruncated, FlagEntry]), NoFaults, []) == UpToDate
  {
    DemoNamesDistinct();
    var out := Dir([DemoVersion, DemoTruncated, FlagEntry]);
    assert Child(out, VersionName) == Some(File([49]));
    assert out.entries[1..] == [DemoTruncated, FlagEntry] && out.entries[1..][1..] == [FlagEntry];
    assert Find([FlagEntry], FlagName) == Some(File([]));
    assert Find([DemoTruncated, FlagEntry], FlagName) == Some(File([]));
    assert Child(out, FlagName) == Some(File([]));
    assert Child(DemoAssets, VersionName) == Some(File([49]));
  }

  lemma DemoCopy()
    ensures CopyAssetDirectory(DemoAssets, None, TruncatingEnv, [])
      == Materialized(Completed, Some(Dir([DemoVersion, DemoTruncated, FlagEntry])))
  {
    DemoLoop();
    DemoNamesDistinct();
    assert [DemoVersion, DemoTruncated][1..] == [DemoTruncated];
    assert Names([DemoTruncated]) == {"main.cjs"};
    assert FlagName !in Names([DemoVersion, DemoTruncated]);
    assert Put([DemoVersion, DemoTruncated], FlagName, File([])) == [DemoVersion, DemoTruncated, FlagEntry];
    assert ListingAt(TruncatingEnv, []) == Listed;
    assert Rebuild(DemoAssets, TruncatingEnv, []) == Finish(Loop([DemoVersion, DemoTruncated], false), TruncatingEnv, []);
  }

  lemma DemoLoop()
    ensures CopyEntries(DemoAssets, 0, [], TruncatingEnv, []) == Loop([DemoVersion, DemoTruncated], false)
  {
    DemoTruncation();
    assert CopyEntries(DemoAssets, 2, [DemoVersion, DemoTruncated], TruncatingEnv, [])
      == Loop([DemoVersion, DemoTruncated], false);
    assert CopyEntries(DemoAssets, 1, [DemoVersion], TruncatingEnv, [])
      == Loop([DemoVersion, DemoTruncated], false);
    assert [] + [VersionName] == [VersionName];
    assert FileIoAt(TruncatingEnv, [VersionName]) == CleanFileIo;
    assert CopyAssetFile([49], None, CleanFileIo) == FileCopy(Some(File([49])), false);
    assert Store([], VersionName, Some(File([49]))) == [DemoVersion];
  }

  lemma DemoTruncation()
    ensures CopyAssetFile([1, 2, 3], None, FileIoAt(TruncatingEnv, [] + ["main.cjs"])) == FileCopy(Some(File([1])), false)
  {
    var io := FileIoAt(TruncatingEnv, [] + ["main.cjs"]);
    assert [] + ["main.cjs"] == ["main.cjs"];
    assert Pump([1, 2, 3], io.stream, 1, 1) == Copied([1], false);
  }

  /** The bundled runtime as a sub-directory `node` holding one file. */
  const NestedRuntime: Node := Dir([Entry("main.cjs", File([7]))])

  const NestedAssets: Node := Dir([DemoVersion, Entry("node", NestedRuntime)])

  /** Creating the flag inside `node` throws; nothing else fails. */
  const NestedFlagEnv: Env := NoFaults.(flagThrows := {["node"]})

  /**
   * A failure inside a sub-directory stays there: the sub-directory is deleted by its own
   * catch block, the parent's loop carries on, and the root is marked complete although
   * the whole runtime directory is missing.
   */
  lemma SubCopyFailureIsLocal()
    ensures var r := CopyAssetDirectory(NestedAssets, None, NestedFlagEnv, []);
      && r.status == Completed
      && Lookup(NestedAssets, ["node"]) == Some(NestedRuntime)
      && Lookup(r.target.value, ["node"]) == None
  {
    var env := NestedFlagEnv;
    DemoNamesDistinct();
    assert TopLevelCalm(NestedAssets, env, []);
    SwallowedFailuresStillComplete(NestedAssets, env, []);
    NestedRuntimeRemoved();
    var es := NestedAssets.entries;
    assert [] + ["node"] == ["node"];
    var slot := CopyAssetFile([49], None, FileIoAt(env, [] + [VersionName])).slot;
    var cur1 := Store([], VersionName, slot);
    assert "node" !in Names(cur1);
    assert CopyEntries(NestedAssets, 0, [], env, []) == CopyEntries(NestedAssets, 1, cur1, env, []);
    var cur2 := Store(cur1, "node", None);
    assert CopyEntries(NestedAssets, 1, cur1, env, []) == CopyEntries(NestedAssets, 2, cur2, env, []);
    LoopEnds(NestedAssets, 2, cur2, env, []);
    assert Find(cur2, "node") == None;
    assert ListingAt(env, []) == Listed;
    var r := CopyAssetDirectory(NestedAssets, None, env, []);
    assert r == Finish(Loop(cur2, false), env, []);
    assert Child(r.target.value, "node") == None;
    assert es[0].name == VersionName && es[1..] == [Entry("node", NestedRuntime)];
    assert Find(es[1..], "node") == Some(NestedRuntime);
    assert Child(NestedAssets, "node") == Some(NestedRuntime);
  }

  /** Inside `node` the flag cannot be created, so its catch block deletes all of it. */
  lemma NestedRuntimeRemoved()
    ensures CopyAssetDirectory(NestedRuntime, None, NestedFlagEnv, ["node"]).target == None
  {
  }
}
