/**
 * `deleteDirectory`: delete a directory's children, in listing order, before the
 * directory itself; give up at the first child that cannot be deleted, and report
 * failure when the listing itself is unavailable.
 */
module DirectoryDelete {
  import opened Basics
  import opened FsTree

  /**
   * Where deletion fails: directories whose `listFiles()` returns null, and nodes whose
   * `delete()` returns false. Paths are relative to the node the deletion starts from.
   */
  datatype DeleteFaults = DeleteFaults(unlistable: set<Path>, undeletable: set<Path>)

  /** The result of `deleteDirectory`, and what is left of the tree afterwards. */
  datatype Deletion = Deletion(ok: bool, rest: Option<Node>)

  function DeleteDirectory(n: Node, f: DeleteFaults, p: Path): (r: Deletion)
    ensures r.ok <==> r.rest.None?
    ensures n.Dir? && p in f.unlistable ==> r == Deletion(false, Some(n))
    decreases n, 1
  {
    match n
    case File(_) =>
      if p in f.undeletable then Deletion(false, Some(n)) else Deletion(true, None)
    case Dir(_) =>
      if p in f.unlistable then Deletion(false, Some(n))
      else match DeleteChildren(n, 0, f, p)
        case Some(left) => Deletion(false, Some(Dir(left)))
        case None =>
          if p in f.undeletable then Deletion(false, Some(Dir([]))) else Deletion(true, None)
  }

  /**
   * The `forEach` over the children from index `i`: None when every child was deleted,
   * otherwise the entries still present after the first child that could not be.
   */
  function DeleteChildren(n: Node, i: nat, f: DeleteFaults, p: Path): Option<seq<Entry>>
    requires n.Dir?
    decreases n, 0, |n.entries| - i
  {
    if i >= |n.entries| then None
    else
      var e := n.entries[i];
      var d := DeleteDirectory(e.node, f, p + [e.name]);
      if d.ok then DeleteChildren(n, i + 1, f, p)
      else Some([Entry(e.name, d.rest.value)] + n.entries[i + 1..])
  }

  /** No node of the tree under `p` resists deletion or listing. */
  predicate Deletable(n: Node, f: DeleteFaults, p: Path)
    decreases n
  {
    && p !in f.undeletable
    && (n.Dir? ==>
          && p !in f.unlistable
          && forall i :: 0 <= i < |n.entries| ==> Deletable(n.entries[i].node, f, p + [n.entries[i].name]))
  }

  /** Deletion succeeds exactly when no node of the tree meets a fault. */
  lemma {:induction false} DeleteSucceedsIffDeletable(n: Node, f: DeleteFaults, p: Path)
    ensures DeleteDirectory(n, f, p).ok <==> Deletable(n, f, p)
    decreases n, 1
  {
    if n.Dir? && p !in f.unlistable {
      ChildrenSucceedIffDeletable(n, 0, f, p);
    }
  }

  lemma {:induction false} ChildrenSucceedIffDeletable(n: Node, i: nat, f: DeleteFaults, p: Path)
    requires n.Dir?
    ensures DeleteChildren(n, i, f, p).None? <==>
      forall j :: i <= j < |n.entries| ==> Deletable(n.entries[j].node, f, p + [n.entries[j].name])
    decreases n, 0, |n.entries| - i
  {
    if i < |n.entries| {
      DeleteSucceedsIffDeletable(n.entries[i].node, f, p + [n.entries[i].name]);
      ChildrenSucceedIffDeletable(n, i + 1, f, p);
    }
  }

  /** A failed deletion only removes: what is left is the original tree with entries gone. */
  lemma {:induction false} DeleteOnlyRemoves(n: Node, f: DeleteFaults, p: Path)
    ensures DeleteDirectory(n, f, p).rest.Some? ==> Shrunk(DeleteDirectory(n, f, p).rest.value, n)
    decreases n, 1
  {
    match n
    case File(_) => ShrunkRefl(n);
    case Dir(_) =>
      if p in f.unlistable {
        ShrunkRefl(n);
      } else {
        ChildrenOnlyRemove(n, 0, f, p);
      }
  }

  lemma {:induction false} ChildrenOnlyRemove(n: Node, i: nat, f: DeleteFaults, p: Path)
    requires n.Dir?
    ensures DeleteChildren(n, i, f, p).Some? ==> EmbedsIn(DeleteChildren(n, i, f, p).value, n, 0, i)
    decreases n, 0, |n.entries| - i
  {
    if i < |n.entries| {
      var e := n.entries[i];
      var d := DeleteDirectory(e.node, f, p + [e.name]);
      if d.ok {
        ChildrenOnlyRemove(n, i + 1, f, p);
      } else {
        var left := [Entry(e.name, d.rest.value)] + n.entries[i + 1..];
        DeleteOnlyRemoves(e.node, f, p + [e.name]);
        assert left[1..] == n.entries[i + 1..];
        EmbedsSuffix(left, n, 1, i + 1);
      }
    }
  }

  /**
   * Children go first, and the first child that resists stops the walk: the siblings
   * before it are gone, it stays (with whatever of it could not be deleted), every later
   * sibling is left untouched, and the directory itself remains.
   */
  lemma {:induction false} DeleteStopsAtFirstFailure(n: Node, f: DeleteFaults, p: Path, k: nat)
    requires n.Dir? && p !in f.unlistable && k < |n.entries|
    requires forall j :: 0 <= j < k ==> Deletable(n.entries[j].node, f, p + [n.entries[j].name])
    requires !Deletable(n.entries[k].node, f, p + [n.entries[k].name])
    ensures var r := DeleteDirectory(n, f, p);
      && !r.ok && r.rest.Some? && r.rest.value.Dir?
      && |r.rest.value.entries| == |n.entries| - k
      && r.rest.value.entries[0].name == n.entries[k].name
      && r.rest.value.entries[1..] == n.entries[k + 1..]
  {
    SkipDeletable(n, 0, k, f, p);
  }

  lemma {:induction false} SkipDeletable(n: Node, i: nat, k: nat, f: DeleteFaults, p: Path)
    requires n.Dir? && i <= k < |n.entries|
    requires forall j :: i <= j < k ==> Deletable(n.entries[j].node, f, p + [n.entries[j].name])
    requires !Deletable(n.entries[k].node, f, p + [n.entries[k].name])
    ensures var left := DeleteChildren(n, i, f, p);
      && left.Some? && |left.value| == |n.entries| - k
      && left.value[0].name == n.entries[k].name
      && left.value[1..] == n.entries[k + 1..]
    decreases k - i
  {
    DeleteSucceedsIffDeletable(n.entries[i].node, f, p + [n.entries[i].name]);
    if i < k {
      SkipDeletable(n, i + 1, k, f, p);
    }
  }
}
