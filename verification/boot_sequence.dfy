/**
 * The service's start-up order, across the two halves of the model: `onCreate` copies
 * the bundle and sets the binary's permission, `onStartCommand` starts the child.
 */
module BootSequence {
  import opened Basics
  import opened FsTree
  import opened AssetMaterializer
  import opened MaterializerProperties
  import opened ProcessSupervisor

  /**
   * On a first install with no faults, whatever bundle ships a `node/bin/node` binary and
   * a `main.cjs` script ends up with both in place: `chmod` is issued, and the start's
   * existence check passes.
   */
  lemma FreshInstallCanLaunch(assets: Node, env: Env, filesDir: string, outcome: ExecOutcome)
    requires WellFormed(assets) && CopyFaultFree(env)
    requires Lookup(assets, NodeExecutable).Some? && Lookup(assets, NodeExecutable).value.File?
    requires Lookup(assets, [ScriptName]).Some? && Lookup(assets, [ScriptName]).value.File?
    ensures var bundle := CopyAssetDirectory(assets, None, env, []).target;
      && CanLaunch(bundle)
      && SetExecutablePermission(bundle, filesDir, outcome).Chmod?
  {
    FaultFreeCopyMirrors(assets, env, []);
    MirrorKeepsFiles(assets, NodeExecutable);
    MirrorKeepsFiles(assets, [ScriptName]);
  }

  /**
   * With no bundle at all (`mkdirs` failed, or a failed copy deleted the directory again),
   * neither `chmod` nor the spawn happens.
   */
  lemma NoBundleNoLaunch(assets: Node, tgt: Option<Node>, env: Env, filesDir: string, outcome: ExecOutcome,
                         h: Host, inherited: Environment, spawn: SpawnOutcome)
    requires Valid(h)
    requires CopyAssetDirectory(assets, tgt, env, []).target.None?
    ensures var bundle := CopyAssetDirectory(assets, tgt, env, []).target;
      && SetExecutablePermission(bundle, filesDir, outcome) == Skipped
      && StartNodeProcess(h, bundle, filesDir, inherited, spawn) == h
  {
  }
}
